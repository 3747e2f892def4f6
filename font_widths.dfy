/** The width tables of a composite TrueType font: the sorted list of
    character codes (runes) of the font's cmap, the rune-to-width and
    glyph-to-width maps, and the W array of the descendant CIDFont, which
    groups consecutive runes of equal width into [first-glyph last-glyph
    width] triples (section 9.7.4.3 of ISO 32000-1). Widths are the font's
    glyph advance widths already scaled to text space and truncated to
    integers. */
module FontWidths {
  import opened PdfCore

  /** A uint16 value: a rune of the cmap or a glyph index. */
  predicate IsU16(x: int) { 0 <= x < 0x1_0000 }

  /** Strictly ascending, hence duplicate free. */
  predicate Ascending(s: seq<int>) {
    forall i, j :: 0 <= i < j < |s| ==> s[i] < s[j]
  }

  // --------------------------------------------------------------------
  // Sorting the runes

  /** `x` put into place in the ascending sequence `s`. */
  function Insert(x: int, s: seq<int>): (r: seq<int>)
    requires Ascending(s) && x !in s
    ensures Ascending(r) && |r| == |s| + 1
    ensures forall y :: y in r <==> y == x || y in s
  {
    if s == [] || x < s[0] then [x] + s
    else
      var t := Insert(x, s[1..]);
      assert s[0] in s && s[0] < x;
      assert forall i :: 0 <= i < |t| ==> s[0] < t[i] by {
        forall i | 0 <= i < |t| ensures s[0] < t[i] {
          assert t[i] in t;
          if t[i] != x {
            assert t[i] in s[1..];
          }
        }
      }
      [s[0]] + t
  }

  /** sort.Slice with `<` on a duplicate-free enumeration of the cmap's runes. */
  function Sorted(order: seq<int>): (r: seq<int>)
    requires forall i, j :: 0 <= i < j < |order| ==> order[i] != order[j]
    ensures Ascending(r) && |r| == |order|
    ensures forall y :: y in r <==> y in order
  {
    if order == [] then []
    else
      var last := order[|order| - 1];
      var front := order[..|order| - 1];
      assert forall y :: y in order <==> y in front || y == last;
      Insert(last, Sorted(front))
  }

  // --------------------------------------------------------------------
  // Width maps

  /** The runes of `runes` have a glyph in `chars`, and each glyph a width in `widths`. */
  predicate Covered(runes: seq<int>, chars: map<int, int>, widths: seq<int>) {
    forall k :: 0 <= k < |runes| ==> runes[k] in chars && 0 <= chars[runes[k]] < |widths|
  }

  /** The loop filling runeToWidthMap and gidToWidthMap: each rune gets the
      width of its glyph, and so does the glyph. A glyph shared by several
      runes is written once per rune, always with the same width. */
  method WidthMaps(runes: seq<int>, chars: map<int, int>, widths: seq<int>)
    returns (runeToWidth: map<int, int>, gidToWidth: map<int, int>)
    requires Covered(runes, chars, widths)
    ensures forall r :: r in runeToWidth <==> r in runes
    ensures forall r :: r in runeToWidth ==> r in chars && 0 <= chars[r] < |widths| && runeToWidth[r] == widths[chars[r]]
    ensures forall g :: g in gidToWidth <==> exists k :: 0 <= k < |runes| && chars[runes[k]] == g
    ensures forall g :: g in gidToWidth ==> 0 <= g < |widths| && gidToWidth[g] == widths[g]
    ensures forall r :: r in runeToWidth ==> chars[r] in gidToWidth && gidToWidth[chars[r]] == runeToWidth[r]
  {
    runeToWidth, gidToWidth := map[], map[];
    for k := 0 to |runes|
      invariant forall r :: r in runeToWidth <==> r in runes[..k]
      invariant forall r :: r in runeToWidth ==> r in chars && 0 <= chars[r] < |widths| && runeToWidth[r] == widths[chars[r]]
      invariant forall g :: g in gidToWidth <==> exists k' :: 0 <= k' < k && chars[runes[k']] == g
      invariant forall g :: g in gidToWidth ==> 0 <= g < |widths| && gidToWidth[g] == widths[g]
    {
      var r := runes[k];
      var glyphIndex := chars[r];
      var w := widths[glyphIndex];
      runeToWidth := runeToWidth[r := w];
      gidToWidth := gidToWidth[glyphIndex := w];
      assert runes[..k + 1] == runes[..k] + [r];
    }
    assert runes[..|runes|] == runes;
    forall r | r in runeToWidth ensures chars[r] in gidToWidth {
      var k :| 0 <= k < |runes| && runes[k] == r;
      assert chars[runes[k]] == chars[r];
    }
  }

  // --------------------------------------------------------------------
  // Runs of equal width

  /** Every rune of `s` has a width in `w`. */
  predicate Widthed(s: seq<int>, w: map<int, int>) {
    forall k :: 0 <= k < |s| ==> s[k] in w
  }

  /** The number of leading runes of `s` whose width is `x`. */
  function SameWidth(s: seq<int>, w: map<int, int>, x: int): (n: nat)
    requires Widthed(s, w)
    ensures n <= |s|
  {
    if s == [] || w[s[0]] != x then 0 else 1 + SameWidth(s[1..], w, x)
  }

  /** The maximal runs of equal width, in order: each run is the first rune
      together with every following rune of the same width. */
  function Runs(s: seq<int>, w: map<int, int>): seq<seq<int>>
    requires Widthed(s, w)
    decreases |s|
  {
    if s == [] then []
    else
      var n := 1 + SameWidth(s[1..], w, w[s[0]]);
      [s[..n]] + Runs(s[n..], w)
  }

  /** Each run is non-empty, its first and last rune have a glyph, and its first rune a width. */
  predicate RunsOk(runs: seq<seq<int>>, chars: map<int, int>, w: map<int, int>) {
    forall k :: 0 <= k < |runs| ==>
      |runs[k]| > 0 && runs[k][0] in chars && runs[k][|runs[k]| - 1] in chars && runs[k][0] in w
  }

  /** The W array of a sequence of runs: per run, the glyph of its first
      rune, the glyph of its last rune and the width of its first rune. */
  function WEntries(runs: seq<seq<int>>, chars: map<int, int>, w: map<int, int>): seq<Obj>
    requires RunsOk(runs, chars, w)
  {
    if runs == [] then []
    else
      var run := runs[0];
      [Int(chars[run[0]]), Int(chars[run[|run| - 1]]), Int(w[run[0]])] + WEntries(runs[1..], chars, w)
  }

  /** The concatenation of a sequence of runs. */
  function Flatten(runs: seq<seq<int>>): seq<int> {
    if runs == [] then [] else runs[0] + Flatten(runs[1..])
  }

  /** SameWidth counts exactly the leading runes of width `x`. */
  lemma {:induction false} SameWidthExact(s: seq<int>, w: map<int, int>, x: int, n: nat)
    requires Widthed(s, w) && n <= |s|
    requires forall k :: 0 <= k < n ==> w[s[k]] == x
    requires n == |s| || w[s[n]] != x
    ensures SameWidth(s, w, x) == n
    decreases n
  {
    if n > 0 {
      SameWidthExact(s[1..], w, x, n - 1);
    }
  }

  /** The runes SameWidth counts have width `x`, and the next one does not. */
  lemma {:induction false} SameWidthMeaning(s: seq<int>, w: map<int, int>, x: int)
    requires Widthed(s, w)
    ensures forall k :: 0 <= k < SameWidth(s, w, x) ==> w[s[k]] == x
    ensures SameWidth(s, w, x) < |s| ==> w[s[SameWidth(s, w, x)]] != x
    decreases |s|
  {
    if s != [] && w[s[0]] == x {
      SameWidthMeaning(s[1..], w, x);
    }
  }

  /** `run` is a non-empty run of runes of `s`, all of the same width. */
  predicate UniformRun(run: seq<int>, s: seq<int>, w: map<int, int>) {
    && |run| > 0
    && (forall m :: 0 <= m < |run| ==> run[m] in s && run[m] in w)
    && (forall m :: 0 <= m < |run| ==> w[run[m]] == w[run[0]])
  }

  /** Runs are non-empty, taken from `s`, and uniform in width. */
  lemma {:induction false} RunsShape(s: seq<int>, w: map<int, int>)
    requires Widthed(s, w)
    ensures forall k :: 0 <= k < |Runs(s, w)| ==> UniformRun(Runs(s, w)[k], s, w)
    decreases |s|
  {
    if s != [] {
      var n := 1 + SameWidth(s[1..], w, w[s[0]]);
      SameWidthMeaning(s[1..], w, w[s[0]]);
      RunsShape(s[n..], w);
      var rs := Runs(s, w);
      assert rs == [s[..n]] + Runs(s[n..], w);
      forall m | 0 <= m < n ensures s[..n][m] in s && s[..n][m] in w && w[s[..n][m]] == w[s[0]] {
        if m > 0 { assert s[..n][m] == s[1..][m - 1]; }
      }
      assert UniformRun(rs[0], s, w);
      forall k | 0 < k < |rs| ensures UniformRun(rs[k], s, w) {
        assert rs[k] == Runs(s[n..], w)[k - 1];
        assert UniformRun(rs[k], s[n..], w);
        forall m | 0 <= m < |rs[k]| ensures rs[k][m] in s {
          assert rs[k][m] in s[n..];
        }
      }
    }
  }

  /** The runs, taken in order, are exactly the runes. */
  lemma {:induction false} RunsPartition(s: seq<int>, w: map<int, int>)
    requires Widthed(s, w)
    ensures Flatten(Runs(s, w)) == s
    decreases |s|
  {
    if s != [] {
      var n := 1 + SameWidth(s[1..], w, w[s[0]]);
      RunsPartition(s[n..], w);
      assert Runs(s, w)[1..] == Runs(s[n..], w);
      assert s == s[..n] + s[n..];
    }
  }

  /** The run after run `k` starts with a width different from the last
      width of run `k`. */
  predicate MaximalAt(rs: seq<seq<int>>, w: map<int, int>, k: int)
    requires 0 <= k < |rs| - 1
  {
    |rs[k + 1]| > 0 && |rs[k]| > 0 && rs[k + 1][0] in w && rs[k][|rs[k]| - 1] in w &&
    w[rs[k + 1][0]] != w[rs[k][|rs[k]| - 1]]
  }

  /** Runs are maximal: the first rune of each run after the first has a
      different width from the run before it. */
  lemma {:induction false} RunsMaximal(s: seq<int>, w: map<int, int>)
    requires Widthed(s, w)
    ensures forall k :: 0 <= k < |Runs(s, w)| - 1 ==> MaximalAt(Runs(s, w), w, k)
    decreases |s|
  {
    RunsShape(s, w);
    if s != [] {
      var n := 1 + SameWidth(s[1..], w, w[s[0]]);
      SameWidthMeaning(s[1..], w, w[s[0]]);
      RunsMaximal(s[n..], w);
      var rs := Runs(s, w);
      assert rs == [s[..n]] + Runs(s[n..], w);
      if |rs| > 1 {
        assert n < |s|;
        assert rs[1] == Runs(s[n..], w)[0] == (s[n..])[..1 + SameWidth(s[n..][1..], w, w[s[n]])];
        assert rs[1][0] == s[n] == s[1..][n - 1];
        assert rs[0][n - 1] == s[n - 1];
        if n > 1 { assert s[n - 1] == s[1..][n - 2]; }
        assert MaximalAt(rs, w, 0);
      }
      forall k | 0 < k < |rs| - 1 ensures MaximalAt(rs, w, k) {
        assert rs[k] == Runs(s[n..], w)[k - 1];
        assert rs[k + 1] == Runs(s[n..], w)[k];
        assert MaximalAt(Runs(s[n..], w), w, k - 1);
      }
    }
  }

  /** The W array has three entries per run: the glyphs of the run's first and
      last rune, then the width of its first rune. */
  lemma {:induction false} WEntriesShape(runs: seq<seq<int>>, chars: map<int, int>, w: map<int, int>)
    requires RunsOk(runs, chars, w)
    ensures |WEntries(runs, chars, w)| == 3 * |runs|
    ensures forall k :: 0 <= k < |runs| ==>
              WEntries(runs, chars, w)[3 * k] == Int(chars[runs[k][0]]) &&
              WEntries(runs, chars, w)[3 * k + 1] == Int(chars[runs[k][|runs[k]| - 1]]) &&
              WEntries(runs, chars, w)[3 * k + 2] == Int(w[runs[k][0]])
    decreases |runs|
  {
    if runs != [] {
      WEntriesShape(runs[1..], chars, w);
      var e := WEntries(runs, chars, w);
      assert e[3..] == WEntries(runs[1..], chars, w);
      forall k | 1 <= k < |runs|
        ensures e[3 * k] == Int(chars[runs[k][0]]) && e[3 * k + 1] == Int(chars[runs[k][|runs[k]| - 1]]) &&
                e[3 * k + 2] == Int(w[runs[k][0]])
      {
        assert runs[k] == runs[1..][k - 1];
        assert e[3 * k] == e[3..][3 * (k - 1)];
        assert e[3 * k + 1] == e[3..][3 * (k - 1) + 1];
        assert e[3 * k + 2] == e[3..][3 * (k - 1) + 2];
      }
    }
  }

  /** The runs of the runes have their first and last rune in `chars`. */
  lemma RunsInChars(s: seq<int>, chars: map<int, int>, w: map<int, int>)
    requires Widthed(s, w) && forall k :: 0 <= k < |s| ==> s[k] in chars
    ensures RunsOk(Runs(s, w), chars, w)
  {
    RunsShape(s, w);
  }

  /** The W array loop of NewCompositePdfFontFromTTFFile: from rune i, j
      moves on while the width stays that of rune i, then the run's first
      glyph, last glyph and width are appended and i jumps to j. The
      counters are uint16 in the source, so the runes number fewer than
      65536 (with at most 65536 distinct uint16 runes, only a full cmap is
      excluded). */
  method BuildW(runes: seq<int>, chars: map<int, int>, runeToWidth: map<int, int>) returns (wArr: seq<Obj>)
    requires |runes| < 0x1_0000
    requires forall k :: 0 <= k < |runes| ==> runes[k] in chars && runes[k] in runeToWidth
    ensures RunsOk(Runs(runes, runeToWidth), chars, runeToWidth) &&
            wArr == WEntries(Runs(runes, runeToWidth), chars, runeToWidth)
  {
    RunsInChars(runes, chars, runeToWidth);
    assert runes[0..] == runes;
    wArr := [];
    var i := 0;
    while i < |runes|
      invariant 0 <= i <= |runes|
      invariant RunsOk(Runs(runes[i..], runeToWidth), chars, runeToWidth)
      invariant WEntries(Runs(runes, runeToWidth), chars, runeToWidth)
                  == wArr + WEntries(Runs(runes[i..], runeToWidth), chars, runeToWidth)
      decreases |runes| - i
    {
      var j := RunEnd(runes, runeToWidth, i);
      var gid1 := chars[runes[i]];
      var gid2 := chars[runes[j - 1]];
      RunStep(runes, chars, runeToWidth, i, j);
      var triple := [Int(gid1), Int(gid2), Int(runeToWidth[runes[i]])];
      AppendAssoc(wArr, triple, WEntries(Runs(runes[j..], runeToWidth), chars, runeToWidth));
      wArr := wArr + triple;
      i := j;
    }
  }

  lemma AppendAssoc<T>(a: seq<T>, b: seq<T>, c: seq<T>)
    ensures a + (b + c) == (a + b) + c
  {
  }

  /** The inner W loop: the index after the run of runes starting at `i`. */
  method RunEnd(runes: seq<int>, w: map<int, int>, i: int) returns (j: int)
    requires 0 <= i < |runes| && Widthed(runes, w)
    ensures i < j <= |runes|
    ensures forall k :: i < k < j ==> w[runes[k]] == w[runes[i]]
    ensures j == |runes| || w[runes[j]] != w[runes[i]]
  {
    j := i + 1;
    while j < |runes|
      invariant i < j <= |runes|
      invariant forall k :: i < k < j ==> w[runes[k]] == w[runes[i]]
      decreases |runes| - j
    {
      if w[runes[i]] != w[runes[j]] {
        break;
      }
      j := j + 1;
    }
  }

  /** One turn of the outer W loop: when runes i to j - 1 share the width of
      rune i and rune j (if any) does not, the first run of runes[i..] is
      runes[i..j], and it contributes exactly its triple. */
  lemma RunStep(runes: seq<int>, chars: map<int, int>, w: map<int, int>, i: int, j: int)
    requires 0 <= i < j <= |runes|
    requires forall k :: 0 <= k < |runes| ==> runes[k] in chars && runes[k] in w
    requires forall k :: i < k < j ==> w[runes[k]] == w[runes[i]]
    requires j == |runes| || w[runes[j]] != w[runes[i]]
    ensures RunsOk(Runs(runes[i..], w), chars, w) && RunsOk(Runs(runes[j..], w), chars, w)
    ensures WEntries(Runs(runes[i..], w), chars, w)
              == [Int(chars[runes[i]]), Int(chars[runes[j - 1]]), Int(w[runes[i]])] + WEntries(Runs(runes[j..], w), chars, w)
  {
    RunsInChars(runes[i..], chars, w);
    RunsInChars(runes[j..], chars, w);
    FirstRun(runes, w, i, j);
    var run := runes[i..j];
    assert run[0] == runes[i] && run[|run| - 1] == runes[j - 1];
    WEntriesCons(run, Runs(runes[j..], w), chars, w);
  }

  /** WEntries of a run followed by further runs. */
  lemma WEntriesCons(run: seq<int>, rest: seq<seq<int>>, chars: map<int, int>, w: map<int, int>)
    requires RunsOk([run] + rest, chars, w)
    ensures |run| > 0 && run[0] in chars && run[|run| - 1] in chars && run[0] in w
    ensures RunsOk(rest, chars, w)
    ensures WEntries([run] + rest, chars, w)
              == [Int(chars[run[0]]), Int(chars[run[|run| - 1]]), Int(w[run[0]])] + WEntries(rest, chars, w)
  {
    assert ([run] + rest)[0] == run && ([run] + rest)[1..] == rest;
    forall k | 0 <= k < |rest| ensures |rest[k]| > 0 && rest[k][0] in chars && rest[k][|rest[k]| - 1] in chars && rest[k][0] in w {
      assert ([run] + rest)[k + 1] == rest[k];
    }
  }

  /** The first run of runes[i..] is runes[i..j] when runes i to j - 1 share
      the width of rune i and rune j (if any) does not. */
  lemma FirstRun(runes: seq<int>, w: map<int, int>, i: int, j: int)
    requires 0 <= i < j <= |runes| && Widthed(runes, w)
    requires forall k :: i < k < j ==> w[runes[k]] == w[runes[i]]
    requires j == |runes| || w[runes[j]] != w[runes[i]]
    ensures Widthed(runes[i..], w) && Widthed(runes[j..], w)
    ensures Runs(runes[i..], w) == [runes[i..j]] + Runs(runes[j..], w)
  {
    var s := runes[i..];
    var t := s[1..];
    assert forall k :: 0 <= k < |t| ==> t[k] == runes[i + 1 + k];
    SameWidthExact(t, w, w[s[0]], j - i - 1);
    assert s[..j - i] == runes[i..j] && s[j - i..] == runes[j..];
  }
}

/** The resource renaming of pdf/model/appender.go: getNewName's choice of
    a suffixed name, the corrected choice of new names that renameResources
    relies on, and renameResources on the appender's state passed by value. */
module Renaming {
  import opened PdfCore
  import opened GoStrings
  import opened PageObjects
  import opened Walks
  import opened Resources

  /** `r` is `name` followed by the least positive decimal suffix that makes
      it a name not in `names`. */
  ghost predicate IsLeastFreeName(name: string, names: set<string>, r: string) {
    exists i: nat {:trigger Itoa(i)} :: 1 <= i && r == name + Itoa(i) && r !in names &&
      forall k: nat :: 1 <= k < i ==> name + Itoa(k) in names
  }

  /** The least free name is unique, so the renamer maps a given name to one
      new name for as long as the name set stays the same. */
  lemma LeastFreeNameUnique(name: string, names: set<string>, r1: string, r2: string)
    requires IsLeastFreeName(name, names, r1) && IsLeastFreeName(name, names, r2)
    ensures r1 == r2
  {
    var i1: nat :| 1 <= i1 && r1 == name + Itoa(i1) && r1 !in names &&
      forall k: nat :: 1 <= k < i1 ==> name + Itoa(k) in names;
    var i2: nat :| 1 <= i2 && r2 == name + Itoa(i2) && r2 !in names &&
      forall k: nat :: 1 <= k < i2 ==> name + Itoa(k) in names;
  }

  /** The name-choosing loop of getNewName, over any set of names to avoid:
      `name` followed by the first decimal suffix 1, 2, ... not in `names`. */
  method LeastFreeName(name: string, names: set<string>) returns (r: string)
    ensures IsLeastFreeName(name, names, r)
    ensures r !in names
  {
    var i: nat := 1;
    ghost var tried: set<string> := {};
    while name + Itoa(i) in names
      invariant 1 <= i
      invariant tried == Tried(name, i)
      invariant tried <= names
      invariant |tried| == i - 1
      decreases |names| - |tried|
    {
      TriedMembers(name, i, i);
      tried := tried + {name + Itoa(i)};
      i := i + 1;
      SubsetCard(tried, names);
    }
    r := name + Itoa(i);
    forall k: nat | 1 <= k < i ensures name + Itoa(k) in names {
      TriedMembers(name, i, k);
    }
  }

  /** The names `name + Itoa(k)` for 1 <= k < i. */
  ghost function Tried(name: string, i: nat): set<string>
  {
    if i <= 1 then {} else Tried(name, i - 1) + {name + Itoa(i - 1)}
  }

  lemma {:induction false} TriedMembers(name: string, i: nat, j: nat)
    ensures name + Itoa(j) in Tried(name, i) <==> 1 <= j < i
  {
    if i > 1 {
      TriedMembers(name, i - 1, j);
      if name + Itoa(j) == name + Itoa(i - 1) {
        SuffixedInjective(name, j, i - 1);
      }
    }
  }

  /** `r` is `name` with a positive decimal suffix. */
  ghost predicate Suffixed(name: string, r: string) {
    exists i: nat {:trigger Itoa(i)} :: 1 <= i && r == name + Itoa(i)
  }

  lemma LeastFreeIsSuffixed(name: string, names: set<string>, r: string)
    requires IsLeastFreeName(name, names, r)
    ensures Suffixed(name, r)
  {
  }

  /** The new names of `names` avoid every name of `avoid` and each other. */
  ghost predicate UniqueRenames(names: set<string>, renames: map<string, string>, avoid: set<string>) {
    forall n :: n in names && n in renames ==>
      renames[n] !in avoid &&
      forall m :: m in names && m in renames && m != n ==> renames[m] != renames[n]
  }

  /** The stream rename map of renameResources: "/" + name to "/" + its new
      name, for exactly the names of `names` that have one. */
  ghost predicate PairsFor(pairs: map<string, string>, names: set<string>, renames: map<string, string>) {
    && (forall n :: n in names && n in renames ==> "/" + n in pairs && pairs["/" + n] == "/" + renames[n])
    && (forall p :: p in pairs ==> |p| > 0 && p == "/" + p[1..] && p[1..] in names && p[1..] in renames)
  }

  /** The renaming the source performs does not look at the page's own
      names: with source name F1 and a page holding F1 and F11, F1 is
      renamed to F11 and re-keying it overwrites the page's own F11. */
  lemma NewNameOverwritesPageName()
    ensures IsLeastFreeName("F1", {"F1"}, "F11")
    ensures RekeyDict(Dict([Entry("F1", Name("a")), Entry("F11", Name("b"))]), "F1", "F11")
              == Dict([Entry("F11", Name("a"))])
  {
    assert Itoa(1) == "1";
    assert "F1" + Itoa(1) == "F11";
    var d := Dict([Entry("F1", Name("a")), Entry("F11", Name("b"))]);
    assert d.entries[1..] == [Entry("F11", Name("b"))];
    assert d.Get("F1") == Some(Name("a"));
    assert d.HasKey("F11") by { assert d.entries[1].key == "F11"; }
    var e := d.Set("F11", Name("a"));
    assert e.entries == [Entry("F1", Name("a")), Entry("F11", Name("a"))];
    assert e.entries[1..] == [Entry("F11", Name("a"))];
    assert FilterOut([Entry("F11", Name("a"))][1..], "F1") == [];
  }
  /** The state of the corrected renaming loop after the names `done`:
      renamed names are source names and their new names are not, exactly
      the done source names gained a new name (in `taken`), the others kept
      theirs, the new names avoid the source and page names and each other,
      and `pairs` is the stream rename map of the done names. */
  ghost predicate ChooseState(names: set<string>, src: set<string>, rrm0: map<string, string>,
                              rrm: map<string, string>, pairs: map<string, string>, taken: set<string>,
                              done: set<string>) {
    && RenamesFresh(rrm, src)
    && (forall n :: n in rrm <==> n in rrm0 || (n in done && n in src))
    && (forall n :: n in rrm0 && n !in done ==> rrm[n] == rrm0[n])
    && (forall n :: n in done && n in src ==> Suffixed(n, rrm[n]) && rrm[n] in taken)
    && UniqueRenames(done, rrm, src + names)
    && PairsFor(pairs, done, rrm)
  }

  /** One pass of the corrected renaming loop. */
  method ChooseOne(n: string, names: set<string>, src: set<string>, ghost rrm0: map<string, string>,
                   rrm: map<string, string>, pairs: map<string, string>, taken: set<string>, ghost done: set<string>)
    returns (rrm': map<string, string>, pairs': map<string, string>, taken': set<string>)
    requires RenamesFresh(rrm0, src) && n in names && n !in done
    requires ChooseState(names, src, rrm0, rrm, pairs, taken, done)
    ensures ChooseState(names, src, rrm0, rrm', pairs', taken', done + {n})
  {
    if n !in src {
      rrm', pairs', taken' := rrm, pairs, taken;
      ChooseSkip(names, src, rrm0, rrm, pairs, taken, done, n);
      return;
    }
    var newName := LeastFreeName(n, src + names + taken);
    LeastFreeIsSuffixed(n, src + names + taken, newName);
    rrm' := rrm[n := newName];
    pairs' := pairs["/" + n := "/" + newName];
    taken' := taken + {newName};
    ChooseTake(names, src, rrm0, rrm, pairs, taken, done, n, newName);
  }

  lemma ChooseSkip(names: set<string>, src: set<string>, rrm0: map<string, string>,
                   rrm: map<string, string>, pairs: map<string, string>, taken: set<string>,
                   done: set<string>, n: string)
    requires RenamesFresh(rrm0, src) && n !in src
    requires ChooseState(names, src, rrm0, rrm, pairs, taken, done)
    ensures ChooseState(names, src, rrm0, rrm, pairs, taken, done + {n})
  {
    assert n !in rrm;
  }

  lemma ChooseTake(names: set<string>, src: set<string>, rrm0: map<string, string>,
                   rrm: map<string, string>, pairs: map<string, string>, taken: set<string>,
                   done: set<string>, n: string, newName: string)
    requires RenamesFresh(rrm0, src) && n in src && n !in done
    requires ChooseState(names, src, rrm0, rrm, pairs, taken, done)
    requires Suffixed(n, newName) && newName !in src + names + taken
    ensures ChooseState(names, src, rrm0, rrm[n := newName], pairs["/" + n := "/" + newName],
                        taken + {newName}, done + {n})
  {
    TakeUnique(names, src, rrm, taken, done, n, newName);
    TakePairs(rrm, pairs, done, n, newName);
    TakeSuffixed(src, rrm, taken, done, n, newName);
    TakeMaps(src, rrm0, rrm, done, n, newName);
  }

  lemma TakeMaps(src: set<string>, rrm0: map<string, string>, rrm: map<string, string>, done: set<string>,
                 n: string, newName: string)
    requires RenamesFresh(rrm, src) && n in src && n !in done && newName !in src
    requires forall m :: m in rrm <==> m in rrm0 || (m in done && m in src)
    requires forall m :: m in rrm0 && m !in done ==> rrm[m] == rrm0[m]
    requires RenamesFresh(rrm0, src)
    ensures RenamesFresh(rrm[n := newName], src)
    ensures forall m :: m in rrm[n := newName] <==> m in rrm0 || (m in done + {n} && m in src)
    ensures forall m :: m in rrm0 && m !in done + {n} ==> rrm[n := newName][m] == rrm0[m]
  {
  }

  lemma TakeSuffixed(src: set<string>, rrm: map<string, string>, taken: set<string>, done: set<string>,
                     n: string, newName: string)
    requires forall m :: m in done && m in src ==> m in rrm && Suffixed(m, rrm[m]) && rrm[m] in taken
    requires Suffixed(n, newName)
    ensures forall m :: m in done + {n} && m in src ==>
              Suffixed(m, rrm[n := newName][m]) && rrm[n := newName][m] in taken + {newName}
  {
  }

  lemma TakeUnique(names: set<string>, src: set<string>, rrm: map<string, string>, taken: set<string>,
                   done: set<string>, n: string, newName: string)
    requires n !in done && newName !in src + names + taken
    requires UniqueRenames(done, rrm, src + names)
    requires forall m :: m in done && m in rrm ==> rrm[m] in taken
    ensures UniqueRenames(done + {n}, rrm[n := newName], src + names)
  {
  }

  lemma TakePairs(rrm: map<string, string>, pairs: map<string, string>, done: set<string>, n: string, newName: string)
    requires n !in done
    requires PairsFor(pairs, done, rrm)
    ensures PairsFor(pairs["/" + n := "/" + newName], done + {n}, rrm[n := newName])
  {
    var rrm', pairs', done' := rrm[n := newName], pairs["/" + n := "/" + newName], done + {n};
    assert ("/" + n)[1..] == n;
    forall m | m in done' && m in rrm' ensures "/" + m in pairs' && pairs'["/" + m] == "/" + rrm'[m] {
      if m != n {
        assert ("/" + m)[1..] == m;
      }
    }
  }

  /** What renameResources achieves on a page whose Contents is an array:
      every recorded name of the page that is a source name, and no other
      name, gains a new name, a suffixed one that avoids the source names,
      the page's names and the other new names; each such resource entry
      moves to its new name, in the dictionary it was in, with its value
      reached by `reached` (when the page's Resources object is not one of
      its own resource dictionaries); and every stream of the Contents
      array is rewritten by the stream rename map `pairs` once per listing. */
  ghost predicate Renamed(a0: Arena, p0: Dict, a1: Arena, p1: Dict, src: set<string>,
                          rrm0: map<string, string>, rrm: map<string, string>, pairs: map<string, string>,
                          reached: set<ObjId>) {
    var names := PageResourceNames(None, a0, p0, map[]).0;
    && (forall n :: n in rrm <==> n in rrm0 || (n in names && n in src))
    && (forall n :: n in names && n in src ==> Suffixed(n, rrm[n]))
    && UniqueRenames(names.Keys, rrm, src + names.Keys)
    && PairsFor(pairs, names.Keys, rrm)
    && (Separate(a0, p0) ==> Rekeyed(a0, p0, a1, p1, names, rrm, reached))
    && GetArray(a0, GetOrNull(p0, "Contents")).Some?
    && StreamsRewritten(a0, a1, GetArray(a0, GetOrNull(p0, "Contents")).value, pairs)
  }

  /** The choice of new names of ChooseNewNames, in full. */
  ghost predicate Chosen(names: set<string>, src: set<string>, rrm0: map<string, string>,
                         rrm: map<string, string>, pairs: map<string, string>) {
    && RenamesFresh(rrm, src)
    && (forall n :: n in rrm <==> n in rrm0 || (n in names && n in src))
    && (forall n :: n in rrm0 && n !in names ==> rrm[n] == rrm0[n])
    && (forall n :: n in names && n in src ==> Suffixed(n, rrm[n]))
    && UniqueRenames(names, rrm, src + names)
    && PairsFor(pairs, names, rrm)
  }

  /** Each pair of the stream rename map lengthens its name, so the
      rewritten stream data, in any order of the replacements, is never
      shorter than before. */
  lemma ChosenStreamsNotShorter(names: set<string>, src: set<string>, rrm0: map<string, string>,
                                rrm: map<string, string>, pairs: map<string, string>, ord: seq<string>, data: string)
    requires Chosen(names, src, rrm0, rrm, pairs) && Enumerates(ord, pairs.Keys)
    ensures forall p :: p in pairs ==> |pairs[p]| > |p|
    ensures |ApplyRenames(data, pairs, ord)| >= |data|
  {
    forall p | p in pairs
      ensures |pairs[p]| > |p|
    {
      var n := p[1..];
      assert p == "/" + n;
      var i: nat :| 1 <= i && rrm[n] == n + Itoa(i);
    }
    ApplyRenamesNotShorter(data, pairs, ord);
  }

  /** The first loop of renameResources, corrected: each of the page's
      names that is a source name gets a new name, the least suffixed name
      that is neither a source name, nor a name of the page, nor a new name
      already chosen in this call; the stream rename map pairs "/" + name
      with "/" + new name. */
  method ChooseNewNames(names: set<string>, src: set<string>, rrm0: map<string, string>)
    returns (rrm: map<string, string>, pairs: map<string, string>)
    requires RenamesFresh(rrm0, src)
    ensures Chosen(names, src, rrm0, rrm, pairs)
  {
    rrm, pairs := rrm0, map[];
    var todo := names;
    var taken: set<string> := {};
    while todo != {}
      invariant todo <= names
      invariant ChooseState(names, src, rrm0, rrm, pairs, taken, names - todo)
      decreases |todo|
    {
      var n :| n in todo;
      rrm, pairs, taken := ChooseOne(n, names, src, rrm0, rrm, pairs, taken, names - todo);
      assert names - (todo - {n}) == (names - todo) + {n};
      todo := todo - {n};
    }
  }

  /** renameResources on the appender's state passed by value. */
  method RenamePage(arena: Arena, page: Dict, src: set<string>, rrm0: map<string, string>,
                    q: seq<ObjId>, h: set<ObjId>, srcObjects: set<ObjId>)
    returns (arena': Arena, page': Dict, rrm: map<string, string>, pairs: map<string, string>,
             q': seq<ObjId>, h': set<ObjId>)
    requires Delta(q, h, srcObjects) && RenamesFresh(rrm0, src)
    ensures Delta(q', h', srcObjects) && q <= q' && h <= h' && RenamesFresh(rrm, src)
    ensures Evolves(arena, arena') && RenameFrame(arena, page, arena', page')
    ensures forall key :: key != "Resources" ==> page'.Get(key) == page.Get(key)
    ensures GetArray(arena, GetOrNull(page, "Contents")).None? ==>
              page' == page && arena' == arena && rrm == rrm0 && q' == q && h' == h
    ensures GetArray(arena, GetOrNull(page, "Contents")).Some? ==>
              Renamed(arena, page, arena', page', src, rrm0, rrm, pairs, h' + srcObjects)
  {
    var contents := GetArray(arena, GetOrNull(page, "Contents"));
    if contents.None? {
      RenameFrameRefl(arena, page);
      return arena, page, rrm0, map[], q, h;
    }
    var names, _ := GetPageResourcesByName(None, arena, page, map[]);
    rrm, pairs := ChooseNewNames(names.Keys, src, rrm0);
    arena', page', q', h' := RenameGraph(arena, page, contents.value, names, rrm, pairs, src, q, h, srcObjects);
    RenamedByGraph(arena, page, arena', page', src, rrm0, rrm, pairs, h' + srcObjects, names, contents.value);
  }

  /** What RenameGraph does with the gathered names and the chosen new
      names is a renaming of the page. */
  lemma RenamedByGraph(arena: Arena, page: Dict, arena': Arena, page': Dict, src: set<string>,
                       rrm0: map<string, string>, rrm: map<string, string>, pairs: map<string, string>,
                       reached: set<ObjId>, names: map<string, ResKind>, elems: seq<Obj>)
    requires names == PageResourceNames(None, arena, page, map[]).0
    requires Chosen(names.Keys, src, rrm0, rrm, pairs)
    requires GetArray(arena, GetOrNull(page, "Contents")) == Some(elems)
    requires RekeyFits(arena, page, names, rrm, src) ==> Rekeyed(arena, page, arena', page', names, rrm, reached)
    requires StreamsRewritten(arena, arena', elems, pairs)
    ensures Renamed(arena, page, arena', page', src, rrm0, rrm, pairs, reached)
  {
    NamesHeldByGather(arena, page);
    assert RenamesInjective(names, rrm);
  }
}

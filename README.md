# Incremental PDF updates and composite fonts, in Dafny

This project models two parts of the unidoc PDF library, and proves properties about them.

**The PdfAppender session** (`pdf/model/appender.go`). An appender opens a source document and writes a new revision after the old bytes. Opening it does three things:

- it locates the catalog and the page tree through the trailer;
- it collects the source pages and their resource names;
- it marks every object reachable from the catalog as pre-existing.

After that, page merges, page replacements and added pages:

- update the working page maps and the page tree's Kids in place;
- queue every new object they reach into the pending delta, each exactly once and never a pre-existing object;
- rename incoming resource names that clash with source names, both in the resource dictionaries and in the content streams.

A signature dictionary is built with fixed entries. It is serialised while recording the byte offsets of its Contents and ByteRange values.

**Composite fonts** (`pdf/model/font_composite.go`). Type 0 fonts and their CIDFontType0 and CIDFontType2 descendants (section 9.7 of ISO 32000-1) are covered in three ways:

- loaded from a font dictionary, with their error cases;
- written back out by `ToPdfObject`, which fills a container indirect object created on first use;
- built from a parsed TrueType program, with the descriptor Flags, the width maps and the W array.

The W array groups consecutive character codes of equal width into `[first-glyph last-glyph width]` triples (section 9.7.4.3 of ISO 32000-1).

Layout:

- `pdf_core.dfy`: the object model. It holds values, ordered dictionaries, and an arena of indirect objects and streams, and states Get, Set, Remove, Merge, TraceToDirectObject (one level), GetDict, GetArray and GetStream.
- `go_strings.dfy`: `strconv.Itoa` and `strings.Replace(…, -1)`.
- `page_objects.dfy`: the error cases, `traceObject`, `getDict`, and rectangles.
- `walks.dfy`: the two graph walks, `lookupIndirectObjects` and `addNewObjects`.
- `resources.dfy`: `getPageResourcesByName`, re-keying renamed resources, and rewriting content streams.
- `renaming.dfy`: `getNewName` and the choice of new names.
- `merge.dfy`: `MergePageWith`.
- `page_tree.dfy`: `ReplacePage` and `AddPages`.
- `source_document.dfy` and `appender.dfy`: `NewPdfAppender` and the `PdfAppender` class. The class holds the session's state as fields and updates them in its methods.
- `sign_dict.dfy`: `makeSignDict` and `pdfSignDictionary.DefaultWriteString`.
- `font_widths.dfy` and `font_dicts.dfy`: the composite fonts.

Go pointers to indirect objects and streams are arena identities (`Ptr(id)`); a `PdfObjectReference` is `Ref(num)`. Object identity is what the core's maps are keyed by, so sets of identities stand for `srcIndirectObjects` and `hasNewObject`.

## Model

| member | source | states |
|---|---|---|
| PageObjects.TraceObject | pdf/model/appender.go:694-699 | A reference is replaced by the parser's object of that number, or fails with a lookup error. Without a parser, or for any other value, the value is returned unchanged. |
| PageObjects.GetDictOf | pdf/model/appender.go:701-711 | An earlier error passes through. Otherwise the result is the dictionary the value is, directly or through an indirect object; if it is not a dictionary, the result is an error. |
| PageObjects.RectFromArray | pdf/model/appender.go:145-150 | Succeeds exactly for arrays of four numbers (integers or reals), giving llx, lly, urx, ury in that order; anything else is InvalidRectangle. This is NewPdfRectangle as its call sites use it: the body of NewPdfRectangle is not part of this model. |
| PageObjects.RectToObj | pdf/model/appender.go:578 | A rectangle written as an array reads back as the same rectangle. |
| PageObjects.ExpandBox | pdf/model/appender.go:559-576 | The new box is the smallest box containing the old box and the incoming box. The changed flag is set exactly when the box moved; a box already containing the incoming one is unchanged. |
| GoStrings.Itoa | pdf/model/appender.go:267 | The decimal form of `n`: decimal digits only, whose value (DecValue) is `n`, with a leading zero exactly for 0. |
| GoStrings.ItoaInjective | pdf/model/appender.go:267 | Distinct numbers have distinct decimal forms. |
| GoStrings.SuffixedInjective | pdf/model/appender.go:267 | `name + Itoa(i)` determines `i`, so the candidate names are pairwise distinct. |
| GoStrings.ReplaceAllNoOccurrence | pdf/model/appender.go:314 | Replace-all leaves a string without the pattern unchanged. |
| GoStrings.ReplaceAllLength | pdf/model/appender.go:314 | A replacement at least as long as the pattern never shortens the string, and one of equal length keeps the length. |
| GoStrings.PrefixNameIsRewritten | pdf/model/appender.go:313-315 | Replacement works on substrings, not on name tokens: renaming /F1 to /F11 also turns /F10 into /F110. |
| Walks.LookupWalk | pdf/model/appender.go:207-230 | The marked set grows to contain every identity in the value. The result is closed under the walk, which enters payloads and container elements but not stream dictionaries. It is also the least such set above the old one. |
| Walks.LookupObject | pdf/model/appender.go:212-214 | Marking an unmarked indirect object or stream, then walking its payload, gives the least closed superset containing it. |
| Walks.LookupChildren | pdf/model/appender.go:215-226 | Walking each array element, object-stream element or dictionary value in turn gives the least closed superset covering all of them. |
| Walks.AddWalk | pdf/model/appender.go:232-261 | The queue only grows and stays a duplicate-free list of exactly the queued set, disjoint from pre-existing objects. Every identity in the value ends up queued or pre-existing. The queued set grows by the least set closed under the walk, which enters stream dictionaries. |
| Walks.AddObject | pdf/model/appender.go:241-244 | An object that is neither queued nor pre-existing is appended once, followed by what its node reaches. |
| Walks.AddChildren | pdf/model/appender.go:245-256 | Each child of a container is walked in turn, with the same queue guarantees as AddWalk. |
| Walks.DeltaMeaning | pdf/model/appender.go:242-243 | The pending delta, element by element: each queued object occurs once, is in `hasNewObject`, and is not pre-existing. |
| Resources.AddNames | pdf/model/appender.go:62-64 | Each key of the dictionary is recorded with the kind of the dictionary holding it. |
| Resources.GatherFromMeaning | pdf/model/appender.go:58-78 | Every recorded name either keeps its earlier binding or is held by the dictionary of the kind it is recorded with, and earlier names stay recorded. On success, every kind's dictionary exists, all of their keys are recorded, and the last kind's keys are recorded with that kind. |
| Resources.PageResourceNamesMeaning | pdf/model/appender.go:53-80 | A non-empty result implies the page has a Resources dictionary, and every recorded name is held by its kind's dictionary. On success, all names of the three kinds are recorded, and a name held by Font is recorded as a font. |
| Resources.GetPageResourcesByName | pdf/model/appender.go:53-80 | The loop-based method computes exactly the names and error of the specification function PageResourceNames. |
| Resources.RekeyResources | pdf/model/appender.go:293-300 | Only dictionary payloads change, and the page keeps every entry but Resources. When the renaming fits, each renamed name's old value moves to its new name in the dictionary it was in, and its value is queued or pre-existing. |
| Resources.ReplaceNames | pdf/model/appender.go:313-315 | The stream data is rewritten by every pair of the rename map, in some enumeration of its keys. |
| Resources.ApplyRenamesUntouched | pdf/model/appender.go:313-315 | A stream that mentions none of the old names comes out of the replacement loop unchanged, in any order of the pairs. |
| Resources.ApplyRenamesNotShorter | pdf/model/appender.go:313-320 | When every new name is at least as long as its old name, the rewritten data, and so the Length set from it, is never shorter. |
| Resources.RenameRewritesLongerNames | pdf/model/appender.go:313-315 | The rewrite hits unrelated longer names: /F10 becomes /F110 when /F1 is renamed to /F11. |
| Resources.RewriteStreams | pdf/model/appender.go:302-322 | Only streams change. Every stream is rewritten once for each time it is listed in Contents, and other streams are untouched. |
| Resources.RenameGraph | pdf/model/appender.go:293-322 | Re-keying followed by stream rewriting: the graph evolves, the page keeps every entry but Resources, the entries are re-keyed and the streams rewritten. Apart from streams, only the page's Resources object and the dictionaries it lists are written, and no dictionary gains a pointer (RenameFrame). |
| Renaming.LeastFreeNameUnique | pdf/model/appender.go:265-274 | The least free suffixed name over a given set is unique. |
| Renaming.LeastFreeName | pdf/model/appender.go:265-274 | The result is `name` plus the first suffix 1, 2, … not in the name set, and it is not in that set. |
| Renaming.LeastFreeIsSuffixed | pdf/model/appender.go:267 | The new name is the old name followed by a decimal suffix. |
| Renaming.ChosenStreamsNotShorter | pdf/model/appender.go:285-291 | Each pair of the stream rename map ("/" + name to "/" + new name) lengthens its name, so a renamed stream never gets shorter. |
| Renaming.NewNameOverwritesPageName | pdf/model/appender.go:285-297 | The source as written: when the source has F1 and the page has F1 and F11, F1 is renamed to F11 and re-keying destroys the page's own F11. |
| Renaming.ChooseNewNames | pdf/model/appender.go:285-291 | Exactly the page's names that are source names are renamed. Each new name is suffixed, avoids the source names, the page's names and the other new names, and is distinct from the others. The stream map pairs "/"+old with "/"+new. |
| Renaming.RenamePage | pdf/model/appender.go:276-325 | Without a Contents array nothing changes. Otherwise the page's clashing names are renamed (see ChooseNewNames and RenameGraph), and the delta and the renames keep their invariants. Either way, apart from streams, only the page's Resources object and the dictionaries it lists are written, and no dictionary gains a pointer. |
| PageMerge.NewId | pdf/model/appender.go:455 | A new indirect object's identity is not in the graph, not queued and not pre-existing. |
| PageMerge.AddAll | pdf/model/appender.go:472-474 | After walking each incoming content element, everything they hold is queued or pre-existing, and the delta invariant is kept. |
| PageMerge.WorkingPageOf | pdf/model/appender.go:429-455 | The working page copies the source page. It fails exactly on a Parent reference that the parser lacks or on a missing Contents. Contents becomes an array of the old elements, and a Parent reference is replaced by its object. |
| PageMerge.AppendContents | pdf/model/appender.go:460-471 | Succeeds exactly when the working Contents is an array. The array then holds its old elements followed by the incoming ones, and only arrays change. |
| PageMerge.MergeFont | pdf/model/appender.go:491-508 | Without incoming fonts nothing changes. With incoming fonts, a trace error of the working Font entry is returned. On success the working page refers to the Resources dictionary, which holds a Font dictionary, and its other entries are kept. |
| PageMerge.MergeExtGState | pdf/model/appender.go:510-524 | Same as MergeFont, except that a working ExtGState that is not a dictionary is skipped instead of being an error. |
| PageMerge.MergeXObject | pdf/model/appender.go:526-546 | Same as MergeFont, except that a missing working XObject dictionary is created as a new, queued indirect object first. |
| PageMerge.MergeKinds | pdf/model/appender.go:491-546 | The three steps in order: the page changes only in Resources, stays unchanged with no incoming kinds, and holds Font and XObject dictionaries when those came in. |
| PageMerge.OpenResources | pdf/model/appender.go:477-489 | A trace error of the working Resources is returned and nothing changes. A pre-existing Resources object is copied, by value, to a new identity and nothing else changes; any other is used where it is. Anything that is not a dictionary is ResourcesNotADictionary. |
| PageMerge.ValueCopyKeepsOriginal | pdf/model/appender.go:482-508 | Through a value copy, the Font step changes no existing object but the Font dictionary node it merges into. |
| PageMerge.WriteThrough | pdf/model/appender.go:482-484 | The copy the source makes shares the original's dictionary: every object holding it ends up with what was written, and no other object changes. |
| PageMerge.MergeFontShared | pdf/model/appender.go:482-508 | The Font step as written: MergeFont's outcome, seen by every object that shares the Resources dictionary. |
| PageMerge.InlineFontStep | pdf/model/appender.go:491-505 | With an inline Font dictionary, the Font step stores Merge(Font, incoming) under Font in the Resources object and changes nothing else. |
| PageMerge.SharedCopyCrossTalk | pdf/model/appender.go:482-508 | As written: after two merges through two copies of one pre-existing Resources object, the first page's name refers to the second page's font. |
| PageMerge.ValueCopyNoCrossTalk | pdf/model/appender.go:482-508 | With value copies: each page keeps its own font for that name, and the original object is unchanged. |
| PageMerge.MergeResources | pdf/model/appender.go:477-546 | A Resources trace error changes nothing. Otherwise the three kinds are merged, with MergeKinds' guarantees. |
| PageMerge.BaseBox | pdf/model/appender.go:547-557 | The base box is the working page's MediaBox when it has one, otherwise the document default, otherwise the origin box. |
| PageMerge.MediaBoxStep | pdf/model/appender.go:547-579 | Fails exactly when the MediaBox is not a rectangle. Only MediaBox changes, and only when the incoming box sticks out; the stored box is then the expanded box. |
| PageMerge.MergedBySteps | pdf/model/appender.go:458-579 | Appending contents, merging resources and updating the media box together give Merged: contents appended, other entries kept, and the media box containing the incoming one. |
| PageMerge.MergeWorking | pdf/model/appender.go:458-579 | No Contents array is SourceContentsNotFound with nothing changed. Success gives Merged, and everything the incoming contents hold is queued or pre-existing. |
| PageMerge.MergePage | pdf/model/appender.go:420-583 | The outcome of MergePageWith (MergeOutcome). A missing page or a failed working page changes nothing: the graph, the page maps, Kids, the delta and the renames are as they were. Other errors keep the page maps and Kids. Success makes the merged working page the page's working page and its Kids entry. |
| PageMerge.InstallPage | pdf/model/appender.go:589-601 | A copied page becomes a new, queued indirect object whose Parent is the page tree root and whose other entries, Resources aside, are the page's. Apart from streams, only the page's Resources object and the dictionaries it lists are written, and no dictionary node gains a pointer. |
| PageMerge.StoreNew | pdf/model/appender.go:588-599 | The page dictionary becomes a new indirect object, distinct from every object of the graph, of the delta and of the source. The delta grows by the least set that holds it and is closed under what it reaches, pre-existing objects aside (addNewObjects). Nothing else in the graph changes, and no dictionary gains a pointer. |
| PageTree.ReplaceAt | pdf/model/appender.go:387-399 | A page index that does not exist is an error and changes nothing: the graph, the page map, Kids, the delta and the renames are as they were. Otherwise the index gets a new queued page under the page tree root, and Kids is updated at that index and stored in the root. Either way, no dictionary node gains a pointer, and no node but the root, streams and what the page's Resources may write changes. Unless the page's Resources may write the root, the root keeps every entry but Kids. |
| PageTree.AppendPage | pdf/model/appender.go:589-602 | The new page is both the source and the working page at the next index, and the last of the Kids. |
| PageTree.AddPageAt | pdf/model/appender.go:589-603 | AppendPage, plus the page tree root's Kids and Count matching the new child list. Besides the root, only the page's Resources object, the dictionaries it lists and streams are written, and no dictionary node gains a pointer. Unless the page's Resources may write the root, the root keeps every entry but Kids and Count. |
| PageTree.AddPagesAt | pdf/model/appender.go:587-605 | PagesAdded: the pages are appended in argument order, and index len(kids)+j holds a new page whose Parent is the page tree root and whose other entries, Resources aside, are those of pages[j]. Earlier entries are kept, and the new indices hold distinct new queued pages. Count matches Kids whenever a page was added, and nothing changes when none was. No dictionary node gains a pointer, and no node but the root, streams and what some page's Resources may write changes (KeptOutside). The root keeps every entry but Kids and Count unless some page's Resources may write it. |
| SourceDocument.GreatestObjNum | pdf/model/appender.go:96-100 | The maximum object number, 0 when there are none. |
| SourceDocument.LocateRoot | pdf/model/appender.go:102-121 | The error cases, in order: missing trailer, Root not a reference, failed lookup, root not an indirect object, catalog not a dictionary. Success yields the catalog. |
| SourceDocument.LocatePages | pdf/model/appender.go:124-139 | Pages not a reference, a failed lookup and a non-indirect object are errors. Success yields the page tree root. |
| SourceDocument.KidPage | pdf/model/appender.go:157-176 | A kid reference is looked up by number, and the result must be an indirect object holding a dictionary. Otherwise the result is the page error for that index. |
| SourceDocument.CollectPages | pdf/model/appender.go:152-178 | Succeeds exactly when every kid is a page, and then maps indices 0..n-1 to them. On error, the error is that of the first kid that is not a page. |
| SourceDocument.SetResourceNames | pdf/model/appender.go:181-192 | Adds the keys of the dictionary the value is. A nil or non-dictionary value changes nothing. |
| SourceDocument.SourceResourceNames | pdf/model/appender.go:194-201 | The loop collects exactly AllResNames of the page list. |
| SourceDocument.AllResNamesMeaning | pdf/model/appender.go:194-201 | A name is a source resource name exactly when some page's XObject, ExtGState or Font dictionary has it as a key. |
| SourceDocument.OpenSource | pdf/model/appender.go:96-201 | Catalog and page tree errors are returned as they are. Success reads the source (SourceRead): Pages now points at the root's object, the default MediaBox is parsed, the pages are the root's Kids, the names come from the page list, and the greatest object number is computed. |
| SourceDocument.SourceReady | pdf/model/appender.go:82-205 | What OpenSource reads satisfies the appender's invariant, with nothing queued or merged yet. |
| Appender.PagesPreExisting | pdf/model/appender.go:203 | Marking from the catalog marks the page tree root as pre-existing. |
| Appender.OpenDocument | pdf/model/appender.go:82-205 | The same errors as OpenSource. On success, exactly the objects reachable from the catalog are pre-existing, and the invariant holds. |
| Appender.NewPdfAppender | pdf/model/appender.go:82-205 | The same errors. On success, a fresh, valid appender holds the source as read, with empty delta, page maps and renames. |
| Appender.PdfAppender.constructor | pdf/model/appender.go:83-94 | The fields are the source as read. The delta, the working pages and the renames start empty. |
| Appender.PdfAppender.LookupIndirectObjects | pdf/model/appender.go:207-230 | The pre-existing set grows by the least closed set reachable from the value (see LookupWalk). |
| Appender.PdfAppender.AddNewObjects | pdf/model/appender.go:232-261 | The pending delta grows by the least closed set of new objects reachable from the value, and keeps its invariant (see AddWalk). |
| Appender.PdfAppender.GetNewName | pdf/model/appender.go:265-274 | The returned name is the least suffixed name that is not a source resource name. |
| Appender.PdfAppender.RenameResources | pdf/model/appender.go:276-325 | renameResources on the session's fields (see RenamePage), keeping the delta and rename invariants. |
| Appender.PdfAppender.MergePageWith | pdf/model/appender.go:420-583 | MergePage on the session's fields. The invariant is kept, and the graph and delta only grow. A missing page or a failed working page leaves every field as it was. |
| Appender.PdfAppender.ReplacePage | pdf/model/appender.go:387-399 | A missing page is an error that leaves every field as it was. Otherwise the page's slot and its Kids entry hold a new queued page under the page tree root. No dictionary node gains a pointer, no node but the root, streams and what the page's Resources may write changes, and the root keeps every entry but Kids unless the page's Resources may write it. |
| Appender.PdfAppender.RemovePage | pdf/model/appender.go:402-417 | Always fails with the "unimplemented" error. |
| Appender.PdfAppender.AddPages | pdf/model/appender.go:587-605 | PagesAdded on the session's fields: every page is appended after the existing ones in argument order, each new page holding its argument's entries except Resources, Count matches Kids, and the rest of the graph changes only as KeptOutside allows, with no new pointers (see AddPagesAt). The invariant is kept. |
| SignDict.MakeSignDict | pdf/model/appender.go:327-347 | The signature dictionary's keys, in order, and every fixed value, including the nested Reference and TransformParams dictionaries. |
| SignDict.WriteEntry | pdf/model/appender.go:621-639 | One loop turn extends the written text by this entry's key prefix and value. Once an entry with key Contents or ByteRange is written, that offset points at its value, right after its key prefix; until then the offset keeps its initial value. |
| SignDict.WrittenAll | pdf/model/appender.go:621-639 | After the last entry, each of Contents and ByteRange has been seen exactly when the dictionary has it. |
| SignDict.SignDictionary.constructor | pdf/model/appender.go:610-615 | A signature dictionary starts with all offsets zero. |
| SignDict.SignDictionary.DefaultWriteString | pdf/model/appender.go:618-642 | The output is "<<", each key and value in order, then ">>". contentsOffset and byteRangeOffset point exactly at the written Contents and ByteRange values (ByteRange after its padding). Without Contents the offset is 0, and without ByteRange the old offset stays. |
| FontWidths.Sorted | pdf/model/font_composite.go:397-403 | The runes sorted ascending: the same members, the same count, and strictly increasing. |
| FontWidths.WidthMaps | pdf/model/font_composite.go:415-426 | runeToWidth is defined exactly on the runes, as the width of each rune's glyph. gidToWidth is defined exactly on the glyphs the runes use. The two agree. |
| FontWidths.SameWidthExact | pdf/model/font_composite.go:437-442 | SameWidth counts exactly the leading runes of the given width. |
| FontWidths.SameWidthMeaning | pdf/model/font_composite.go:437-442 | The counted runes have the width, and the next one does not. |
| FontWidths.RunsShape | pdf/model/font_composite.go:434-453 | Every run is non-empty, contiguous in the runes, and of one width. |
| FontWidths.RunsPartition | pdf/model/font_composite.go:434-453 | The runs, concatenated in order, are exactly the runes. |
| FontWidths.RunsMaximal | pdf/model/font_composite.go:434-453 | Each run is maximal: the next run starts with a different width. |
| FontWidths.WEntriesShape | pdf/model/font_composite.go:445-450 | The W array has three entries per run: the first glyph, the last glyph and the run's width. |
| FontWidths.RunsInChars | pdf/model/font_composite.go:445-446 | The first and last rune of each run are in the cmap. |
| FontWidths.BuildW | pdf/model/font_composite.go:431-453 | The two nested loops build exactly the triples of the maximal equal-width runs. |
| FontWidths.RunEnd | pdf/model/font_composite.go:436-442 | The inner loop stops at the first rune whose width differs from rune i's, or at the end. |
| FontWidths.RunStep | pdf/model/font_composite.go:434-453 | One outer turn emits exactly the triple of the first run, and the rest of the W array comes from the remaining runes. |
| FontDicts.SetIf | pdf/model/font_composite.go:125-127 | A Some value is set under its key; None leaves the dictionary as it is; other keys are kept. |
| FontDicts.NewCIDFontType0 | pdf/model/font_composite.go:237-261 | A wrong Subtype is RangeError, and a missing CIDSystemInfo is RequiredAttributeMissing. It succeeds exactly otherwise, with every field traced to a direct object. |
| FontDicts.NewCIDFontType2 | pdf/model/font_composite.go:351-376 | The same checks for CIDFontType2, with the fields, CIDToGIDMap included, taken as they are. |
| FontDicts.NewType0AsWritten | pdf/model/font_composite.go:138-168 | The loader as written: DescendantFonts must be a one-element array, else RangeError, and the loaded font has no Encoding. |
| FontDicts.NewType0 | pdf/model/font_composite.go:138-168 | The corrected loader. Same errors, and a descendant load error passes through. The descendant is the loaded one, the Encoding entry is kept, and the identity encoder is chosen exactly for Encoding Identity-H. |
| FontDicts.CIDFontType0Entries | pdf/model/font_composite.go:209-233 | Each set field is written under its key; an unset field and every other key keep the skeleton dictionary's value. |
| FontDicts.CIDFontType2Entries | pdf/model/font_composite.go:320-347 | The same for CIDFontType2, including CIDToGIDMap. |
| FontDicts.Type0Entries | pdf/model/font_composite.go:118-134 | Encoding is written when set, and DescendantFonts as the one-element array. All other keys are the skeleton's. |
| FontDicts.CIDFontType0RoundTrip | pdf/model/font_composite.go:209-261 | Loading, then writing, gives back each present CIDFontType0 key's value, traced to a direct object. An absent key is left to the skeleton dictionary. |
| FontDicts.CIDFontType2RoundTrip | pdf/model/font_composite.go:320-376 | Loading, then writing, gives back each present CIDFontType2 key's value exactly. |
| FontDicts.Type0RoundTrip | pdf/model/font_composite.go:118-168 | With the corrected loader, a Type 0 font is written back with the Encoding it was loaded with. |
| FontDicts.Type0EncodingLost | pdf/model/font_composite.go:138-168 | The source as written: a Type 0 font with Encoding Identity-H loads and is written back without any Encoding entry. |
| FontDicts.CIDFont.ToPdfObject | pdf/model/font_composite.go:320-347 | The container is created on first use and reused afterwards. It then holds the CIDFont dictionary, and nothing else in the graph changes. |
| FontDicts.FontType0.ToPdfObject | pdf/model/font_composite.go:118-134 | The container is created on first use. Writing it also writes the descendant into its own, different container, and the Type 0 dictionary refers to it in DescendantFonts. |
| FontDicts.Flags | pdf/model/font_composite.go:495-505 | Symbolic is always set, FixedPitch exactly for fixed pitch, Italic exactly for a nonzero angle, and no other bit. |
| FontDicts.IdentitySystemInfo | pdf/model/font_composite.go:459-463 | CIDSystemInfo is Registry Adobe, Ordering Identity, Supplement 0. |
| FontDicts.NewCompositeFont | pdf/model/font_composite.go:383-526 | Fails exactly when the program has no widths, without touching the graph. Otherwise it returns the full composition (CompositeOf), summarised below. |

NewCompositeFont's composition (CompositeOf) states:

- the runes are sorted;
- the width maps are as in WidthMaps, and DW is glyph 0's width;
- W is a new indirect object holding the W array of the runs;
- CIDToGIDMap is Identity, and CIDSystemInfo is Adobe/Identity/0;
- the Type 0 font has Encoding Identity-H and the TrueType encoder, and shares its skeleton with the descendant;
- StemV is 120 if bold and 70 otherwise, and the Flags are as in Flags.

## Left out

**Outside the model (I/O, parsing, other files):**

- WriteToFile, the PDF writer and SHA-1 hashing: file and stream I/O. The pending delta they consume is modelled.
- CreateSignatureField and ReplaceForm: they build form fields and annotations in files that are not part of this model.
- copyPage, copyObject and PdfPage.Duplicate: modelled as taking the copied page dictionary by value. The model does not capture which inline dictionaries the Go copies share with the source.
- The stream codecs (NewEncoderFromStream, DecodeStream, EncodeBytes): the identity. Decode and encode errors are not modelled. The Length a rewritten stream gets counts characters of the decoded data rather than bytes of the encoded data.
- PdfObject.DefaultWriteString for keys and values: a parameter `write` of DefaultWriteString. Name escaping is not modelled.
- Offsets are counted in characters; Go's `len` counts bytes.
- fileOffset is kept and never written, as in the source.
- TtfParse, ReadFile, the Flate-encoded FontFile2 stream and float scaling by 1000/UnitsPerEm: the widths are taken as already scaled and truncated.
- The Ascent, Descent, CapHeight, FontBBox, ItalicAngle and MissingWidth descriptor entries are not modelled.
- newPdfFontFromPdfObject, the loader of descendant fonts, is a parameter `load` of NewType0.
- fontSkeleton.toDict is the parameters `base` and `descBase`. The fontCommon serialisation is not part of this model.
- The descendant PdfFont's own skeleton (subtype CIDFontType2) is not modelled; only the shared Type0 skeleton is kept.
- GetGlyphCharMetrics, Encoder and SetEncoder are lookups into font data this model does not keep.
- TraceToDirectObject follows one indirect object, not a chain; the model has no indirect object holding a reference.
- Go map iteration order: an `order` parameter (the runes of the cmap), or an unspecified enumeration (`ReplaceNames`, the re-keying loop).

**Modelling choices that differ from the code:**

- Go panics are error values here: a failed type assertion, or `parser == nil` in LookupByNumber. A glyph index beyond the widths is excluded by NewCompositeFont's precondition, as the Go code would panic on it.
- A `nil` Get result is `Null` (GetOrNull), and a nil Resources group is `None`.
- A pointer in the model is an identity in the arena, which can name an identity that is not there. A Go pointer always names an object. AddPages therefore requires each incoming page's Resources entry, and the values of its Resources dictionary, to point to objects of the graph (PageTree.ResourcesWithin).
- The generation number of references is ignored: LookupByNumber and LookupByReference read the same table.
- A page tree root that is not a dictionary is the error PagesNotADictionary. The source skips the page block instead and opens an appender with no pages.
- RenameResources uses the corrected choice of new names (see Findings).
- PageMerge.OpenResources, PageMerge.MergeResources, PageMerge.MergePage and Appender.PdfAppender.MergePageWith copy a pre-existing Resources object by value, the corrected behaviour (see Findings). The source's copy shares the original's dictionary. The model therefore does not capture that a merge also changes the pre-existing object, nor that it changes every other copy made of it for another page. That sharing is modelled only for the Font step, by PageMerge.MergeFontShared.
- renameResources cannot fail in the model, because its only errors come from the stream codecs. Its callers ignore its error in the source anyway.
- FontType0.ToPdfObject stores the Type 0 container in the field after writing the descendant, not before. The resulting graph and fields are the same, and nothing can observe the order.
- NewCompositeFont: requires fewer than 65536 runes. The Go loop counters are uint16 and wrap at 65536.

**Contracts deliberately weaker than the source:**

- SourceDocument.OpenSource: states the catalog and page tree errors and the success state. It does not state that each later error (PagesNotADictionary, an invalid MediaBox, KidsNotFound, a kid that is not a page) occurs exactly when its condition holds.
- Appender.OpenDocument and Appender.NewPdfAppender: the same limitation as OpenSource.
- PageMerge.MergeResources: states that Font and XObject dictionaries are held after a merge with those kinds. It does not state ExtGState (skipped when the working entry is not a dictionary), nor the merged dictionary's contents beyond MergeEntry's per-step guarantee.
- PageMerge.MergeKinds: the same limitation as MergeResources.
- Appender.PdfAppender.RenameResources: the re-keying is stated only when the page's Resources object is not itself one of its resource dictionaries (Separate).
- Renaming.RenamePage: the same limitation as RenameResources.
- Appender.PdfAppender.AddPages: states each new page's Parent and every other entry except Resources. The renamed Resources is described by RenamePage and is not restated per page.
- PageTree.AddPagesAt: the same limitation as AddPages.
- PageTree.ReplaceAt: states the new page's Parent and every other entry except Resources. The renamed Resources is described by RenamePage and is not restated for the new page.
- Appender.PdfAppender.ReplacePage: the same limitation as ReplaceAt.
- PageMerge.InstallPage: states that the new page is queued. The closure of the delta over what the page reaches (addNewObjects) is stated by StoreNew and not passed on to InstallPage, ReplaceAt, AddPageAt, AddPagesAt, ReplacePage or AddPages.

## Findings

| source | as written | input that shows it | evidently intended | confidence | as-written member | corrected member |
|---|---|---|---|---|---|---|
| pdf/model/appender.go:265-297 | getNewName picks the first suffixed name that is not a source resource name, ignoring the incoming page's own names; re-keying then overwrites the page's entry of that name | source names {F1}; an incoming page with a Contents array and a Resources dictionary holding an ExtGState dictionary, an XObject dictionary (both may be empty; without them getPageResourcesByName returns before it reads Font) and the Font dictionary {F1: a, F11: b}: F1 is renamed to F11 and the page's F11 (b) is lost | the new name also avoids the page's own names and the other new names, so no entry is lost | not executed | Renaming.NewNameOverwritesPageName (with Appender.PdfAppender.GetNewName) | Renaming.ChooseNewNames (used by Renaming.RenamePage) |
| pdf/model/appender.go:482-484 | a pre-existing Resources object is copied with MakeIndirectObject(resourcesIndObj.PdfObject), a new indirect object around the same dictionary, so the merge writes into the original and into every other copy of it | pages 0 and 1 share the pre-existing Resources object R with Font {F1: f}; MergePageWith(0, P) with P's Font {F1: X}, then MergePageWith(1, Q) with Q's Font {F1: Y}; both F1 are renamed to F11, and page 0's F11 ends up naming Y | the working page gets its own copy of the Resources dictionary, and R and the other pages are left as they were | medium, not executed | PageMerge.MergeFontShared (with PageMerge.SharedCopyCrossTalk) | PageMerge.OpenResources (with PageMerge.ValueCopyNoCrossTalk and PageMerge.ValueCopyKeepsOriginal) |
| pdf/model/font_composite.go:138-168 | newPdfFontType0FromPdfObject never sets the font's Encoding field, so ToPdfObject writes the font back without its Encoding | a Type0 dictionary with Encoding /Identity-H and a one-element DescendantFonts array | the loaded font keeps its Encoding entry and writes it back | not executed | FontDicts.NewType0AsWritten (with FontDicts.Type0EncodingLost) | FontDicts.NewType0 (with FontDicts.Type0RoundTrip) |

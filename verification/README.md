# Expat 1.95.7 and AES-128, modelled and proved in Dafny

The code with bodies in this repository is the XML parser expat 1.95.7 (`src/system/expat`) and an
AES-128 cipher (`src/framework/cim/AESencript.c`).  This project models their algorithms and proves
what they are for.  Code that changes state in place is a class with methods, loops and
invariants; each method is proved against functions on values, and the properties are lemmas about
those functions.  The model has `XML_DTD`, `XML_NS` and `XML_CONTEXT_BYTES` on, as
`src/system/expat/expat_config.h` sets them, and one-byte characters inside the parser (UTF-8).

`dafny verify dfyconfig.toml` checks everything.

## What is modelled

| files | part of the program |
|---|---|
| `HashTable` | the open-addressing table with double hashing, and its iteration |
| `StringPool` | the block allocator for strings |
| `InputWindow` | the input buffer and the calls that fill it |
| `Bytes`, `Scanners` | byte types, and the scanners for markup, against one state machine |
| `Names`, `MarkupGrammar`, `TagGrammar` | names and markup as productions on bytes, and that the scanners accept exactly them |
| `ContentScan`, `ContentRuns` | content and CDATA tokens, and content that arrives in pieces |
| `ContentText`, `Endings` | texts and CDATA sections on bytes; inputs that end too early |
| `TagWords`, `TagStack`, `TagRuns` | open elements, their raw names across pieces, matching tags |
| `Documents` | whole documents: what is reported for a printed element |
| `Namespaces` | scoped bindings, expanded names and triplets in shared buffers |
| `NsAtts`, `StoreAtts` | the versioned table of expanded attribute names; the attribute list laid over its input |
| `AttValue`, `EntityExpansion`, `StartTags`, `TagValues` | attribute values: tokens, normalisation, entities, `getAtts` and its fast path |
| `AttributeText`, `TagAttributes` | the same on bytes: what a value expands to, what `getAtts` finds in a printed tag |
| `Context` | the context string handed to external entity parsers |
| `Prolog` | the prolog state machine |
| `Declarations`, `PrologGrammar` | the declarations, prologs and external subsets it accepts, with their roles |
| `ContentModel`, `Scaffold`, `BuildModel`, `ElementDecl` | content models: machine, scaffold, flattened result |
| `Utf8`, `Transcode`, `CharRef` | UTF-8 and UTF-16, their converters, character references |
| `Aes`, `AesExample` | the cipher, FIPS 197 and the inverse cipher; the example of its appendix |

Conventions.  Structures that the program links by pointers and shares are numbered, and a pointer
is a number, in `Namespaces`, `StringPool` and the buffers of `TagStack`; elsewhere they are objects
and arrays.  Calls to the application are a list of events.  Hash functions are arbitrary, but for the
one example that needs the program's own.
`Encoding` carries what differs between the UTF-8 tables; the tables of multi-byte name characters
are a parameter of the model.

## Where the code is not what one might expect

- The comparison for duplicate attributes stops at the end of the new name, so a name can be refused
  because a longer one with the same hash value begins with it.  With the separator `|` and 32-bit
  hash values, `<e xmlns:p="u" p:ahaksaapa="1" p:a="2"/>` is refused (`NsAttributes.DistinctNamesRefused`);
  `NsAttributes.RefusesExactly` says when the check is exact.
- Without a separator the prefix that triplets append is not seen: a zero is written in its place
  (`NamespaceParsing.SpelledName`).
- The name in a reference need not be complete characters: the naming tables look at no more than
  the low bits of the bytes behind the first.  `AttributeTokens.Proper` therefore asks for complete
  characters only outside references, and `TagValues.ValuesAreProper` shows that the scanner ensures it.
- The probe step is truncated to an unsigned char, so the quarter of the table that the comment in
  `xmlparse.c` gives as its limit is not reached in large tables; the proofs use only that it is odd
  and smaller than the table.
- `utf8_toUtf8` may stop behind the lead byte of a character although its comment says otherwise;
  `TagStacks.Utf8ToUtf8` promises no more, and `TagStacks.TagParser.FillName` shows that names are complete
  all the same.
- When input is refused, a longer piece may have reported less of the data in front of the bad byte
  than shorter pieces would; the byte, the reason and the markup before it are the same.

## Model

| member | source | states |
|---|---|---|
| Probing.OddCancels | src/system/expat/xmlparse.c:110-121 | A multiple of an odd step is divisible by a power of two only if its factor is: the reason the step is made odd. |
| Probing.ProbesDiffer | src/system/expat/xmlparse.c:110-121 | A probe path with an odd step meets as many different slots as the table has before it meets one twice. |
| Probing.NextProbe | src/system/expat/xmlparse.c:5409-5411 | The subtraction or wrap-around done in C leads to the next slot of the path, without a negative index. |
| HashTables.FreeSlotMeansAbsent | src/system/expat/xmlparse.c:5402-5414 | A free slot met on the way shows that the name is stored nowhere in the table. |
| HashTables.PlacingKeepsOrder | src/system/expat/xmlparse.c:5451-5457 | An entry placed on its own path leaves every other entry findable, and one more slot is in use. |
| HashTables.WalkIsBounded | src/system/expat/xmlparse.c:5402-5412 | A walk over full slots is no longer than the number of full slots, for any hash function. |
| HashTables.HashTable.Lookup | src/system/expat/xmlparse.c:5383-5458 | For any hash function the table is a finite map: a stored name is found, an absent one is not, and with `create` exactly one binding, to a fresh entry of that name, is added. |
| HashTables.HashTable.Walk | src/system/expat/xmlparse.c:5402-5412 | The probe loop ends; it stops at the entry of the name if there is one, and otherwise at a free slot behind which the name does not occur. |
| HashTables.HashTable.Grow | src/system/expat/xmlparse.c:5416-5449 | Doubling the table keeps every binding and the number of entries, whatever the new paths are. |
| HashTables.HashTable.Clear | src/system/expat/xmlparse.c:5460-5469 | Clearing leaves the empty map in the same array. |
| HashTables.IterationIsExact | src/system/expat/xmlparse.c:5490-5506 | Going through the slots meets every binding of the map exactly once, and nothing else. |
| HashTables.HashTableIter.Next | src/system/expat/xmlparse.c:5497-5506 | Each call returns the first entry not yet returned, and null when none is left. |
| TagWords.EndsExactly | src/system/expat/xmlparse.c:2085-2252 | The outermost element ends exactly when the tags begin with those of an element, and what has been reported then is that element: every start with an end of the same name, properly nested. |
| TagWords.MismatchesExactly | src/system/expat/xmlparse.c:2198-2215 | A mismatch is found exactly when some tag closes another name than the innermost open one. |
| TagWords.RunIsExplained | src/system/expat/xmlparse.c:2085-2252 | Over every sequence of tags: what the parser holds and has reported is explained by a partly read element, a complete one, a wrong end tag inside open elements, or a leading end tag. |
| TagWords.NodeIsFollowed | src/system/expat/xmlparse.c:2085-2252 | The tags of an element are accepted wherever it stands, and leave the open elements as they were. |
| TagNames.NameScanned | src/system/expat/xmltok_impl.c:1695-1720 | In a tag the scanner accepts, the name is cut off, inside the tag, by a byte that belongs to no name. |
| TagNames.NameLength | src/system/expat/xmltok_impl.c:1695-1720 | The loop without a bound stops before the end of the input, at the first byte that is in no name. |
| TagNames.CutsKeepTags | src/system/expat/xmlparse.c:1929-2372 | The meaning of the tags does not depend on the cuts, even when the input is refused later. |
| TagStacks.Utf8ToUtf8 | src/system/expat/xmltok.c:312-329 | Copies a prefix of what is left, all of it when it fits, and nothing else, even when it stops behind a lead byte. |
| TagStacks.TagParser.FillName | src/system/expat/xmlparse.c:2115-2142 | The conversion loop ends with exactly the name and a zero in the element's own buffer, however often the buffer grows and wherever a round stops. |
| TagStacks.TagParser.StartTag | src/system/expat/xmlparse.c:2085-2153 | The stack of names gains this name, whether the element is recycled or new; no other element's name, buffer or raw name changes. |
| TagStacks.TagParser.EndTag | src/system/expat/xmlparse.c:2198-2252 | The tag matches exactly when its name is, byte for byte, the raw name of the innermost element; otherwise the error is a mismatch, or an asynchronous entity at level 0; the name reported is the one the start tag reported. |
| TagStacks.TagParser.EmptyElement | src/system/expat/xmlparse.c:2154-2197 | Reports a start and an end, and ends the document when no element is open. |
| TagStacks.TagParser.StoreRawNames | src/system/expat/xmlparse.c:1764-1807 | Afterwards every open element has its raw name in its own buffer, although the loop stops at the first one that has; names, reports and the pointers into moved buffers are as before. |
| TagStacks.TagParser.MoveOpen | src/system/expat/xmlparse.c:1783-1801 | When the buffer of an open element moves, its name and what points into it go along, and no other element notices. |
| TagStacks.TagParser.NewInput | src/system/expat/xmlparse.c:1497-1564 | Once the raw names are stored, overwriting or replacing the parse buffer loses no name. |
| TagRuns.ParseAll | src/system/expat/xmlparse.c:1810-1822 | Through any sequence of pieces, each in the old parse buffer or another one: the reports are those of the tags of the whole input, which end an element exactly when they begin with the tags of one; when no tag stops the parser, the verdict is the one on the whole input; for a printed document they are its elements (`Documents.DocumentIsFollowed`). |
| Scopes.CurrentIsInnermost | src/system/expat/xmlparse.c:2756-2761 | The current binding of a prefix is the innermost declaration in scope, and null exactly when there is none or the default namespace was taken away. |
| Scopes.InnermostExactly | src/system/expat/xmlparse.c:2750-2761 | A prefix is bound exactly when its last declaration has a URI, and then to that URI. |
| NamespaceParsing.NamespaceParser.AddBinding | src/system/expat/xmlparse.c:2712-2768 | One declaration more is in scope and heads the element's list; an empty URI for a named prefix is refused and changes nothing; every record is on exactly one list before and after. |
| NamespaceParsing.NamespaceParser.PopBindings | src/system/expat/xmlparse.c:2240-2248 | At the end of an element all its bindings, and no others, leave the scope, and each prefix gets back what was hidden. |
| NamespaceParsing.NamespaceParser.StoreName | src/system/expat/xmlparse.c:2657-2706 | The expanded name is the URI of the innermost declaration, the separator, the local part, and for triplets the prefix once more; the innermost declaration is the last one (`Scopes.InnermostExactly`); an undeclared prefix is an error; names of open elements that share the buffer stay good when it is written or replaced. |
| NamespaceParsing.SpelledName | src/system/expat/xmlparse.c:2697-2704 | What is read behind the URI is the local part and what triplets append; without a separator a zero stands in front of the prefix, which is then not seen. |
| NamespaceParsing.NamespaceParser.MoveBuffer | src/system/expat/xmlparse.c:2683-2696 | A longer buffer for a binding takes its URI and the names of all open elements that lie in it along. |
| NamespaceParsing.NamespaceParser.EndName | src/system/expat/xmlparse.c:2217-2237 | The name put together again at the end tag, from the local part and the prefix, is the name reported at the start tag, although later elements have overwritten the buffer; it fits into the room made for it then. |
| NamespaceParsing.NamespaceParser.DoElement | src/system/expat/xmlparse.c:2085-2252 | For every tree of elements the reports are those of plain scoping, start and end with one expanded name; without an error every prefix is bound afterwards as before. |
| NamespaceParsing.NamespaceParser.DoChildren | src/system/expat/xmlparse.c:2085-2252 | The same for the content of an element, child after child. |
| NamespaceParsing.PoppedRecord | src/system/expat/xmlparse.c:2244-2247 | Moving the newest binding to the free list keeps the lists disjoint and complete, the scope of the rest, and the names of the elements further out. |
| NamespaceParsing.AttachedRecord | src/system/expat/xmlparse.c:2750-2763 | A record filled for a declaration continues the scope. |
| NamespaceParsing.WrittenName | src/system/expat/xmlparse.c:2697-2704 | Writing a name behind the URI of one binding leaves every URI in scope readable, and the names of open elements where they were. |
| AttributeLists.Attributes.StoreAtts | src/system/expat/xmlparse.c:2417-2652 | The error is the one of `StoreError`, whose exact condition is `SucceedsExactly`; without one the array holds the specified attributes that are no declarations, in order, then the defaults that apply, prefixed names replaced by their expansions, which read as `AttributeNamesAreFull` says, and a zero, within its bounds; the element's declarations are in force, every flag is clear again and the table is ready for the next element. |
| AttributeLists.SucceedsExactly | src/system/expat/xmlparse.c:2417-2652 | storeAtts succeeds if and only if no name is specified twice, every value can be stored, no declaration has an empty URI for a named prefix, the prefix of every listed name is bound by the declarations then in force, and no expanded name clashes with an earlier one. |
| AttributeLists.AttributeNamesAreFull | src/system/expat/xmlparse.c:2588-2640 | In the list that storeAtts leaves, the name of a prefixed attribute reads, up to its first zero, as the URI of the innermost declaration of its prefix, the separator, the local part, and for triplets the separator and the prefix, as the name of an element would; without triplets it is exactly the first three. |
| AttributeLists.ListHasExactly | src/system/expat/xmlparse.c:2431-2545 | A name and a value stand in the list if and only if an attribute that is no declaration was specified so, or was not specified and has that default. |
| AttributeLists.ExpandedNamesDiffer | src/system/expat/xmlparse.c:2571-2640 | When storeAtts succeeds, all prefixed attributes have different expanded names, whatever the hash function. |
| AttributeLists.SpecifiedExactly | src/system/expat/xmlparse.c:2431-2501 | The loop over the specified attributes ends without an error if and only if their names differ, their values can be stored and none of their declarations is refused. |
| AttributeLists.Attributes.Specified | src/system/expat/xmlparse.c:2431-2501 | The words written never reach a record that is still to be read; the error is the first among the attributes: a name met before, a value that cannot be stored, or a refused declaration; the declarations come into force in order. |
| AttributeLists.Attributes.WriteOne | src/system/expat/xmlparse.c:2448-2481 | Writing two words for an attribute changes no word of a later record, and the value comes from the record as it was. |
| AttributeLists.Attributes.AddDefaults | src/system/expat/xmlparse.c:2515-2539 | Exactly the defaults with a value whose attribute was not specified are added, in order, and their flags set; those that are declarations come into force, and a refused one is the only error. |
| AttributeLists.Attributes.ExpandAndClear | src/system/expat/xmlparse.c:2571-2652 | The first clash or unbound prefix among the listed names is the error; otherwise prefixed names, and only they, are expanded, and every flag is cleared although the first loop ends at the last prefixed name and the second one also writes in front of that name's expansion. |
| AttributeLists.Attributes.ExpandNames | src/system/expat/xmlparse.c:2571-2646 | At the early end of the loop no prefixed name is left, and the flags still set are those of the names not reached and of the declarations; an error is that of the first name whose prefix is unbound or whose expansion clashes. |
| AttributeLists.Attributes.ExpandOne | src/system/expat/xmlparse.c:2578-2640 | An unbound prefix, or an expanded name that matches a stored one of this element, is refused and changes nothing; otherwise name and hash value are entered and the stored form, with the prefix of triplets, is one more string of the pool. |
| AttributeLists.FrontsOnly | src/system/expat/xmlparse.c:2648-2650 | The zero that the clearing loop writes in front of the last expanded name changes no name in the list. |
| AttributeLists.ListedNames | src/system/expat/xmlparse.c:2443-2449 | Specified attributes that have passed the check have different names in the list. |
| AttributeLists.NewDefault | src/system/expat/xmlparse.c:2516-2518 | The flag of a default is clear exactly when its attribute was not specified. |
| NsAttributes.NsAttTable.Begin | src/system/expat/xmlparse.c:2546-2569 | The table behaves as if it had just been cleared, also when it grows or the version wraps around, and has more than twice as many slots as prefixed attributes. |
| NsAttributes.NsAttTable.Insert | src/system/expat/xmlparse.c:2600-2639 | A name is refused exactly when a stored entry of this element matches it; otherwise one entry more is stored. |
| NsAttributes.NsAttTable.WalkTo | src/system/expat/xmlparse.c:2603-2619 | The probing ends, at a matching entry if there is one, and otherwise at a free slot of the path. |
| NsAttributes.NsAttTable.EnterAll | src/system/expat/xmlparse.c:2571-2647 | Over any sequence of elements, each element is judged on its own: the attribute refused is the first that clashes with an earlier one of the same element. |
| NsAttributes.PathHoldsHash | src/system/expat/xmlparse.c:2605-2619 | Every entry with this hash value lies on the path before its first free slot. |
| NsAttributes.NoDuplicateIsMissed | src/system/expat/xmlparse.c:2600-2620 | Whatever the hash function, attributes that are all accepted have different expanded names. |
| NsAttributes.RefusesExactly | src/system/expat/xmlparse.c:2608-2614 | Without a collision between a name and a longer one that begins with it, refusal means duplicate; for different names such a collision is the only way to be refused. |
| NsAttributes.DistinctNamesRefused | src/system/expat/xmlparse.c:2582-2614 | Under the program's own hash function, in 32 bits, the expanded names of `ahaksaapa` and `a` in the namespace `u` have one hash value, and the second is refused because the first begins with it. |
| Prolog.PrologState.TokenRole | src/system/expat/xmlrole.c:117-1300 | Every handler, for every token, returns the role and leaves the handler, level, section count and quiet role that the transition function gives; what that function accepts and reports is fixed by `Declarations.DeclaresExactly`, `PrologGrammar.PrologExactly`, `PrologGrammar.ExternalSubsetIsRead` and `ContentUniqueness.AcceptsExactlyPrintedModels`. |
| PrologRuns.CountersAgree | src/system/expat/xmlrole.c:990-1300 | Over every run of fewer than 2^32 tokens `level` is the number of groups reported open, `includeLevel` the number of open INCLUDE sections counted on the tokens, and neither has wrapped around. |
| PrologRuns.LevelCountsParentheses | src/system/expat/xmlrole.c:990-1300 | Inside a content model `level` is the number of parentheses that the tokens since the last declaration began have opened and not closed, and so is the number of groups reported open; before and behind the model there are none. |
| PrologRuns.ReadEntity | src/system/expat/xmlrole.c:1302-1322 | A new machine, of a document or of an external entity, that is given the tokens one by one ends in the state of the run and has returned its roles; level and section count are those of the tokens. |
| PrologRuns.Step | src/system/expat/xmlrole.c:117-1300 | One token keeps the machine consistent with its history. |
| PrologRuns.ElementStep | src/system/expat/xmlrole.c:971-1199 | In the handlers of a content model each token changes `level` as it changes the number of open groups, which is at least 1 where a member or separator is expected. |
| PrologRuns.CondSectStep | src/system/expat/xmlrole.c:1203-1260 | Conditional sections open exactly one section each, and leave the groups alone. |
| PrologRuns.ExternalSubsetStep | src/system/expat/xmlrole.c:379-420 | In the external subset every token keeps the state in step with the sections and groups opened before; a close for which no section is open is an error. |
| PrologRuns.EntitiesKeepToTheirHandlers | src/system/expat/xmlrole.c:82-88 | A document entity never reaches a handler of an external subset, nor the other way round. |
| PrologRuns.EndNeedsClosedSections | src/system/expat/xmlrole.c:403-420 | The end of an external subset is refused exactly when an INCLUDE section is open. |
| PrologRuns.ErrorIsFinal | src/system/expat/xmlrole.c:1281-1289 | After an error the state never changes and no role is ever reported. |
| Declarations.DeclaresExactly | src/system/expat/xmlrole.c:424-970 | From a subset and back: the machine accepts exactly the declarations of entities, notations and attribute lists, with blanks and parameter entity references anywhere inside, and reports for each token the role that describes its part of the declaration. |
| Declarations.DeclarationIsRead | src/system/expat/xmlrole.c:424-970 | Every declaration, token by token, is reported by its lines and leads back to its subset; entities with a value or an external identifier and a notation, notations with one or two identifiers, attributes with their types and defaults. |
| Declarations.DeclarationIsReported | src/system/expat/xmlrole.c:424-970 | The same with blanks and parameter entity references anywhere inside; only the last token leaves the declaration. |
| Declarations.DoctypeIsRead | src/system/expat/xmlrole.c:205-377 | A document type declaration with its name, external identifier and internal subset is reported by its lines. |
| Declarations.DocumentIsRead | src/system/expat/xmlrole.c:116-377 | A prolog, from the XML declaration to the start of the outermost element, is reported by its lines. |
| PrologGrammar.PrologExactly | src/system/expat/xmlrole.c:116-377 | The start of the outermost element is accepted exactly behind a prolog: an XML declaration only as the first token but for byte order marks, at most one document type declaration, its identifier and its subset in their places, and white space, instructions and comments around it. |
| PrologGrammar.BlanksAreQuiet | src/system/expat/xmlrole.c:116-377 | White space and byte order marks, where they are accepted around the declarations, are reported as nothing, or inside a document type declaration as its quiet role. |
| PrologGrammar.ExternalSubsetIsRead | src/system/expat/xmlrole.c:379-420 | An external subset, from its text declaration to its end, is reported by the lines of its parts; INCLUDE sections nest and their content is reported, an IGNORE section is reported as one to be skipped. |
| PrologGrammar.SectionHeadExactly | src/system/expat/xmlrole.c:1203-1260 | Behind the opening of a conditional section exactly one of the two keywords and '[' are accepted, with blanks between them. |
| PrologGrammar.SectionsBalance | src/system/expat/xmlrole.c:393-420 | The end of the subset is an error exactly inside a section, and the close of a section exactly outside. |
| ContentParsing.ParticleIsRead | src/system/expat/xmlrole.c:1103-1199 | Reading the printed form of a particle adds exactly that particle to the innermost open group, at any depth. |
| ContentParsing.MixedIsRead | src/system/expat/xmlrole.c:1019-1100 | Mixed content is read back from its printed form. |
| ContentParsing.ModelIsRead | src/system/expat/xmlrole.c:989-1199 | Every content model is read back from its printed form. |
| ContentUniqueness.AcceptsExactlyPrintedModels | src/system/expat/xmlrole.c:989-1199 | A declaration is accepted with model m if and only if m is a content model and the tokens are its printed form with blanks between them, whichever of the two kinds of token the scanner makes of a name with a colon. |
| ContentUniqueness.MixedSeparatorsFail | src/system/expat/xmlparse.c:3972-3993 | A group that mixes the two separators is rejected. |
| ContentUniqueness.PrintingIsInjective | src/system/expat/xmlrole.c:989-1199 | Different models are printed differently. |
| ContentUniqueness.NestingIsBounded | src/system/expat/xmlrole.c:1124-1199 | No more groups are open than tokens have been read. |
| ContentUniqueness.BlanksAreSkipped | src/system/expat/xmlrole.c:989-1275 | Blanks between the tokens change nothing, also in an error. |
| ScaffoldShapes.ShapeFrame | src/system/expat/xmlparse.c:5684-5730 | A finished tree in the scaffold is not disturbed by changes outside its nodes, nor by the sibling link of its root. |
| ScaffoldShapes.OpenAttached | src/system/expat/xmlparse.c:5684-5730 | The node of a new group becomes the last child of the innermost one, and the links represent the open groups again. |
| ScaffoldShapes.TopClosed | src/system/expat/xmlparse.c:4170-4187 | Closing a group makes its nodes the tree of a complete member of the group around it. |
| ElementDeclarations.ElementDecl.NextScaffoldPart | src/system/expat/xmlparse.c:5684-5730 | One unlinked node more, attached to the innermost group, whether the array grows or not. |
| ElementDeclarations.ElementDecl.GroupOpen | src/system/expat/xmlparse.c:3939-3971 | The scaffold represents one more open group. |
| ElementDeclarations.ElementDecl.GroupSequence | src/system/expat/xmlparse.c:3972-3978 | A comma is refused exactly behind a bar of the same group. |
| ElementDeclarations.ElementDecl.GroupChoice | src/system/expat/xmlparse.c:3979-3993 | A bar is refused exactly behind a comma of the same group, and makes the group a choice unless it is mixed. |
| ElementDeclarations.ElementDecl.ContentElement | src/system/expat/xmlparse.c:4122-4157 | The innermost group has one more member, with this name and quantifier. |
| ElementDeclarations.ElementDecl.GroupClose | src/system/expat/xmlparse.c:4159-4188 | Closing an inner group makes it a member of the outer one; closing the outermost hands over its tree in fresh arrays. |
| ElementDeclarations.ElementDecl.DoRole | src/system/expat/xmlparse.c:3939-4188 | Every role does to the scaffold what it does to the open groups, including which errors it reports. |
| ElementDeclarations.HandlersFit | src/system/expat/xmlrole.c:989-1199 | The roles the handlers report always fit the groups that are open, so no scaffold index is out of range. |
| ElementDeclarations.ElementDecl.BuildModel | src/system/expat/xmlparse.c:5770-5789 | A scaffold that represents a tree is copied into exactly as many cells and characters as were counted, and shows that tree. |
| FlatModels.BuildNode | src/system/expat/xmlparse.c:5732-5768 | The subtree is laid out with its children side by side; the two write positions advance by exactly its nodes and characters, and nothing else is written. |
| FlatModels.LaidRepresents | src/system/expat/xmlparse.c:5732-5768 | What is laid out reads back as the tree: kinds, quantifiers, names, order of children. |
| FlatModels.OneTreeIsShown | src/system/expat/xmlparse.c:5732-5768 | The flat copy shows one tree only. |
| ElementDeclarations.ReadContent | src/system/expat/xmlparse.c:3939-4188 | Token by token through machine and scaffold: a model is handed over if and only if the tokens are the printed form of some content model, with blanks anywhere, and then it shows that model. |
| MarkupMachine.ScanSettled | src/system/expat/xmltok_impl.c:83-779 | A scanner that has reached a verdict reaches the same on any longer input. |
| MarkupMachine.ScanShifts | src/system/expat/xmltok_impl.c:83-779 | What a scanner returns depends only on the bytes it has not read yet, not on where they stand. |
| Scanners.ScanComment | src/system/expat/xmltok_impl.c:89-123 | The loop agrees with the machine on every input: end of token, place of error, or kind of incompleteness. |
| Scanners.CheckPiTarget | src/system/expat/xmltok_impl.c:174-215 | The target is refused or recognised exactly by its three letters and their case. |
| Scanners.ScanPi | src/system/expat/xmltok_impl.c:219-279 | Target and body of a processing instruction, as the machine reads them. |
| Scanners.ScanEndTag | src/system/expat/xmltok_impl.c:379-424 | An end tag, as the machine reads it. |
| Scanners.ScanRef | src/system/expat/xmltok_impl.c:492-518 | A reference, as the machine reads it, in content and in an attribute value. |
| Scanners.ScanAtts | src/system/expat/xmltok_impl.c:522-677 | The attributes of a tag through all nested loops, as the machine reads them. |
| Scanners.ScanLt | src/system/expat/xmltok_impl.c:681-779 | All markup behind '<', as the machine reads it; `TagGrammar.MarkupIsExact` says what that is. |
| TagGrammar.MarkupIsExact | src/system/expat/xmltok_impl.c:83-779 | Behind '<' the scanners find a token if and only if the bytes are a start tag, an empty element, an end tag, a comment, a processing instruction or the opening of a CDATA section, as the productions of XML 1.0 have them, with their differences of kind, and it ends where they end. |
| TagGrammar.MarkupIsScanned | src/system/expat/xmltok_impl.c:83-779 | Every such markup is scanned to its end, whatever stands behind it: tags with any attributes, blanks, quotes and references, names with at most one prefix where colons are special. |
| TagGrammar.MarkupIsGood | src/system/expat/xmltok_impl.c:83-779 | Whatever the scanners accept is such markup, with its parts. |
| MarkupGrammar.RefIsGood | src/system/expat/xmltok_impl.c:428-518 | Whatever is accepted behind '&', in content and in a value, is a name and ';', or '#' and digits and ';', or "#x" and hexadecimal digits and ';'. |
| MarkupGrammar.ValueIsGood | src/system/expat/xmltok_impl.c:573-620 | What is accepted as an attribute value is characters other than '<', '&' and its quote, and references, up to that quote. |
| MarkupGrammar.BodyIsGood | src/system/expat/xmltok_impl.c:89-123 | The body of an accepted comment has no two hyphens side by side and none at its end. |
| MarkupGrammar.PiBodyIsGood | src/system/expat/xmltok_impl.c:219-279 | The body of an accepted instruction ends at the first "?>". |
| Names.NameCharIsChecked | src/system/expat/xmltok_impl.c:12-72 | The cases for names accept exactly the characters that may begin a name or go on with one. |
| Names.TypesOfMarkup | src/system/expat/xmltok.c:74-115 | Each byte of markup, and no other byte, has the type the scanners look for. |
| ContentTokens.ContentTok | src/system/expat/xmltok_impl.c:781-876 | A token of the content: a unit, extended to the end of its run when it is data. |
| ContentTokens.CdataSectionTok | src/system/expat/xmltok_impl.c:301-375 | The same in a CDATA section. |
| ContentTokens.ContentRunByUnits | src/system/expat/xmltok_impl.c:832-875 | A run of data is made of the units one would get by stopping behind every character; "]]>" inside it is found by both. |
| ContentTokens.CdataRunByUnits | src/system/expat/xmltok_impl.c:348-374 | The same in a CDATA section. |
| ContentTokens.ScanIsNoData | src/system/expat/xmltok_impl.c:83-779 | Markup is never reported as data. |
| ContentRuns.TokensAreUnits | src/system/expat/xmlparse.c:1929-2372 | Reading token by token ends like reading unit by unit: with the same events once adjacent data is joined, and refused at the same byte behind the same markup. |
| ContentRuns.UnitRunExtends | src/system/expat/xmlparse.c:1954-1996 | With more input a run goes on where it stopped, unless it stopped at an error. |
| ContentRuns.UnitRunShifts | src/system/expat/xmlparse.c:1474-1494 | A run does not depend on where its input stands. |
| ContentRuns.FeedReads | src/system/expat/xmlparse.c:1809-1822 | After each piece the parser is where one run over everything read so far would be. |
| ContentRuns.CutsDoNotMatter | src/system/expat/xmlparse.c:1809-1822 | Whatever the cuts: the same input is refused, for the same reason, at the same byte and behind the same markup, and otherwise all events are the same; "]]>" is let through at no cut. |
| ContentRuns.ContentParser.DoContent | src/system/expat/xmlparse.c:1929-2372 | The loop reports the events of the token run and stops where it stops: at a byte the scanner refuses, at a reference to a number that is no character, at a misplaced XML declaration, or where more input is needed; on the bytes themselves this is `ContentText.TextIsRefusedExactly`, `Documents.DocumentIsReported` and module `Endings`. |
| ContentText.TextIsRefusedExactly | src/system/expat/xmltok_impl.c:781-876 | However it is cut, a text of XML characters without '<' and '&' is refused exactly when it contains "]]>", at the last byte of the first one; otherwise its characters are reported as data and its line ends one by one. |
| ContentText.SectionIsRead | src/system/expat/xmltok_impl.c:301-375 | Wherever it stands in content, a CDATA section is reported as its opening, its characters and line ends, and its close at the first "]]>"; content goes on behind it. |
| ContentText.SectionAlone | src/system/expat/xmltok_impl.c:301-375 | The same for a section by itself, however it is cut: afterwards the mode is that of content. |
| ContentText.TextIsRead | src/system/expat/xmltok_impl.c:781-876 | A text in front of other things is reported to its end, as data and line ends, in content and in a section. |
| Documents.DocumentIsReported | src/system/expat/xmlparse.c:1929-2372 | However it is cut, an element printed with its attributes, text, references, comments, instructions, CDATA sections and elements inside it, blanks anywhere, is reported piece by piece exactly as it was printed, and nothing is left over. |
| Documents.DocumentIsFollowed | src/system/expat/xmlparse.c:2085-2252 | The tags of such a document are those of its tree, whatever prefixes and attributes they have; they end the outermost element, and what is reported are its elements. |
| Documents.TagsOfItem | src/system/expat/xmlparse.c:2085-2252 | The tags among what is reported for anything that may stand in content are those of its elements. |
| Endings.MarkupIsUnfinished | src/system/expat/xmlparse.c:1967-1996 | Input that ends inside markup behind a text is refused at the '<', as an unclosed token, or as a partial character, which needs that it ends inside one. |
| Endings.CharacterIsUnfinished | src/system/expat/xmlparse.c:1967-1996 | Input that ends inside a character behind a text is refused at that character. |
| Endings.SectionIsUnclosed | src/system/expat/xmlparse.c:2860-2888 | Input that ends inside a CDATA section is refused as an unclosed section, whatever has been read of it. |
| Endings.DeclarationIsMisplaced | src/system/expat/xmlparse.c:2262-2264 | An XML declaration behind a text is refused at its '<'. |
| Endings.NumberIsRefused | src/system/expat/xmlparse.c:2265-2275 | A reference to a number that is no character is refused at its '&'. |
| ContentRuns.Check | src/system/expat/xmlparse.c:2262-2275 | A token of the content is refused exactly when it is an XML declaration or a reference to a number that is no character. |
| ContentTokens.ScanIsNoReference | src/system/expat/xmltok_impl.c:681-779 | Markup behind '<' is never reported as a character reference, although references stand in its attribute values. |
| ContentRuns.ContentParser.DoCdataSection | src/system/expat/xmlparse.c:2794-2888 | The loop of a CDATA section is the part of that run up to its close. |
| ContentRuns.ContentParser.Parse | src/system/expat/xmlparse.c:2773-2792 | One call feeds the bytes left over and the new ones, in the mode the last call ended in, with the verdict of the run. |
| StartTags.GetAtts | src/system/expat/xmltok_impl.c:1427-1518 | On every tag the scanner accepts: the number of attributes, and as many as fit with the places of name and value and the mark of normal values, as the scanner's own path through the tag gives them; for a printed tag these are the printed names and values (`TagAttributes.AttributesAreFound`). |
| TagAttributes.AttributesAreFound | src/system/expat/xmltok_impl.c:1427-1518 | For a printed tag getAtts finds as many attributes as were printed, in order, each with the place of its name and of its value, and the mark exactly for normal values. |
| StartTags.TagStep | src/system/expat/xmltok_impl.c:1427-1518 | Scanner and getAtts go through an accepted tag together, character by character, although they classify characters differently. |
| StartTags.AttributesAreGood | src/system/expat/xmltok_impl.c:1427-1518 | Every value getAtts finds in an accepted tag carries the mark exactly when it is normal, and a marked one consists of complete characters without '<'. |
| StartTags.CloseValue | src/system/expat/xmltok_impl.c:1456-1507 | What getAtts checks byte by byte, looking one byte ahead, amounts at the closing quote to the value being normal: no reference and no white space but single inner spaces. |
| StartTags.NormalIsStored | src/system/expat/xmlparse.c:2450-2481 | A value marked normal is exactly what storeAttributeValue would have stored, for CDATA attributes and for the others. |
| AttributeTokens.AttributeValueTok | src/system/expat/xmltok_impl.c:1199-1256 | A token of an attribute value: a run of plain characters, one white space, or a reference. |
| AttributeTokens.RefKinds | src/system/expat/xmltok_impl.c:492-518 | Behind '&' the only tokens are character and entity references of the proper form. |
| AttributeTokens.PredefinedEntityName | src/system/expat/xmltok_impl.c:1564-1615 | The switch over lengths and letters knows exactly the five predefined names. |
| AttributeValues.RunIsExpansion | src/system/expat/xmlparse.c:4350-4496 | The routine that collapses spaces on the way gives the full expansion with spaces collapsed at the end, through any nesting of entities. |
| AttributeValues.StoredIsNormalised | src/system/expat/xmlparse.c:4334-4348 | The stored value is that of section 3.3.3 of XML 1.0, whatever entities are open around it: the expansion, or for attributes other than CDATA its words joined by single spaces; the errors are those of the expansion. |
| AttributeText.PlainValue | src/system/expat/xmlparse.c:4384-4409 | The white-space rule on bytes: a value of complete characters without references and '<' expands to itself with CR LF, and each other CR, LF, tab and space, made one space. |
| AttributeText.PlainPart | src/system/expat/xmlparse.c:4384-4409 | The same for the part of a value in front of a reference. |
| AttributeText.LessThanIsRefused | src/system/expat/xmlparse.c:4372-4376 | A '<' is never part of a value. |
| AttributeText.CharReferenceMeans | src/system/expat/xmlparse.c:4385-4402 | A character reference, wherever it stands, contributes the encoding of its character, and is an error when its number is that of no XML character. |
| AttributeText.PredefinedMeans | src/system/expat/xmlparse.c:4411-4422 | Each of the five predefined references contributes its character, wherever it stands and whatever is declared or open. |
| AttributeText.EntityReferenceMeans | src/system/expat/xmlparse.c:4423-4486 | A reference to any other entity is an error, or nothing when it may be undeclared, or what the text of the entity expands to while the entity is open. |
| AttributeValues.SqueezeJoins | src/system/expat/xmlparse.c:4403-4409 | Collapsing spaces character by character joins the words by single spaces. |
| AttributeTokens.CompleteIsProper | src/system/expat/xmltok_impl.c:1199-1256 | A text made of complete characters is one the routines for values can read. |
| TagValues.CollectedIsProper | src/system/expat/xmltok_impl.c:1427-1518 | In a tag the scanner goes on to accept, whatever it has still to find has values whose characters outside references are complete. |
| TagValues.ValuesAreProper | src/system/expat/xmltok_impl.c:1427-1518 | Every value getAtts finds in an accepted tag can be read by the routines for values: outside references its characters are complete, and this is all that is needed. |
| TagValues.ValueIsNormalised | src/system/expat/xmlparse.c:2450-2481 | For every attribute of every accepted tag, the value used, from the fast path or the slow one, is that of section 3.3.3 of XML 1.0 with the errors of the expansion. |
| EntityExpansion.AttributeParser.AppendAttributeValue | src/system/expat/xmlparse.c:4350-4496 | It ends, by fewer closed entities or less text; it appends what the specification says, with its error; and every entity is open afterwards exactly if it was before, also after an error. |
| EntityExpansion.AttributeParser.ExpandEntity | src/system/expat/xmlparse.c:4475-4485 | The entity is open while its text is appended, and closed again whatever happens. |
| EntityExpansion.AttributeParser.StoreAttributeValue | src/system/expat/xmlparse.c:4334-4348 | The pool ends with the stored value and a zero; the entities that are open are those that were open before; what white space, references and characters contribute to the value is stated on bytes in module `AttributeText`. |
| EntityExpansion.ChainsAreFree | src/system/expat/xmlparse.c:4460-4464 | In a text that expands no chain of references meets an open entity, or one entity twice. |
| EntityExpansion.RecursionHasChain | src/system/expat/xmlparse.c:4460-4464 | A recursion error has a chain of references that ends in an open entity or repeats one. |
| EntityExpansion.ErrorsAndCycles | src/system/expat/xmlparse.c:4460-4464 | No error means that no chain of references repeats or meets an entity already open; a recursion error means that one does. |
| EntityExpansion.OnlyRecursionFails | src/system/expat/xmlparse.c:4410-4486 | When every reference names an internal text entity and all texts are readable, recursion is the only error. |
| EntityExpansion.ExpansionSubstitutes | src/system/expat/xmlparse.c:4350-4496 | An expansion without an error is substitution of the texts to any sufficient depth. |
| EntityExpansion.ExpansionIsSubstitution | src/system/expat/xmlparse.c:4350-4496 | When all references can be read, expansion fails, with a recursion error, if and only if a chain of references repeats or meets an entity already open, and is substitution otherwise. |
| Characters.ValidExactly | src/system/expat/xmltok.c:74-115 | The byte sequences the scanners accept as one character are exactly the encodings (section 4 of RFC 3629) of characters other than U+FFFE and U+FFFF. |
| Characters.EncodedIsAccepted | src/system/expat/xmltok.c:84-115 | Every character's encoding is accepted, and decodes to that character. |
| Transcoding.ToUtf16 | src/system/expat/xmltok.c:331-371 | Converts a whole number of characters, as many as the output holds, and touches nothing behind them. |
| Transcoding.ToUtf8 | src/system/expat/xmltok.c:529-590 | The same for the converter back, which never stops inside a surrogate pair or a character. |
| Transcoding.Pack4IsUtf8 | src/system/expat/xmltok.c:571-585 | The four bytes put together from a surrogate pair are the encoding of its character. |
| Transcoding.AcceptedExactly | src/system/expat/xmltok.c:74-115 | A text is accepted exactly when it encodes a sequence of characters, the decoded one. |
| Transcoding.ToUtf16InPieces | src/system/expat/xmltok.c:331-371 | Through output buffers of any sizes with room for a character the whole text is converted. |
| Transcoding.RoundTrip | src/system/expat/xmltok.c:331-371 | Every accepted text comes back unchanged from both converters, whatever the sizes of the buffers on the way. |
| CharRefs.ScannedIsCharRef | src/system/expat/xmltok_impl.c:428-488 | Every reference the scanner returns as a character reference has the form of one, of any length. |
| CharRefs.CharRefNumber | src/system/expat/xmltok_impl.c:1520-1562 | In 32-bit arithmetic, for a numeral of any length: the exact value if it is a character of section 2.2 of XML 1.0, and -1 if not. |
| CharRefs.CheckIsChar | src/system/expat/xmltok.c:1160-1177 | The test by high byte and table is the definition of a character in section 2.2 of XML 1.0. |
| CharRefs.XmlUtf8Encode | src/system/expat/xmltok.c:1179-1214 | The encoding of the character; nothing exactly for numbers outside the code space. |
| CharRefs.XmlUtf16Encode | src/system/expat/xmltok.c:1216-1232 | The same in UTF-16. |
| InputWindow.Window.GetBuffer | src/system/expat/xmlparse.c:1497-1564 | `len` bytes are free on return; the unparsed bytes and the last 1024 parsed ones, or all there are, are intact, whether they stay, move or are copied. |
| InputWindow.Window.MoveDown | src/system/expat/xmlparse.c:1512-1517 | Moving overlapping bytes down keeps the window. |
| InputWindow.Window.CopyToNew | src/system/expat/xmlparse.c:1525-1548 | A longer buffer keeps the window. |
| InputWindow.Window.ParseBuffer | src/system/expat/xmlparse.c:1474-1494 | The processor sees exactly the unparsed rest of the stream followed by the new bytes. |
| InputWindow.Window.ParseAll | src/system/expat/xmlparse.c:1399-1471 | Over any sequence of pieces, empty ones too, with a processor of its own for each call, each call goes on with what the calls before it have left, and the bytes in the window are the unparsed suffix of the stream. |
| InputWindow.Window.Parse | src/system/expat/xmlparse.c:1399-1471 | The processor sees the unparsed rest and the new bytes; a call without bytes does nothing unless it is the last, when the processor sees the rest alone. |
| InputWindow.Window.WindowIsRest | src/system/expat/xmlparse.c:1497-1564 | Between the two pointers lies the unparsed suffix of the stream, before them its last parsed bytes. |
| StringPools.Pool.Grow | src/system/expat/xmlparse.c:5621-5682 | In each of its four ways the pool gets strictly more room; the growing string keeps its characters, and every finished string its address and contents. |
| StringPools.Pool.AppendChar | src/system/expat/xmlparse.c:436-439 | The growing string gains the character; finished strings stay. |
| StringPools.Pool.Finish | src/system/expat/xmlparse.c:435 | The growing string becomes a finished one, which stays where it is from now on; an empty one leaves no trace. |
| StringPools.Pool.CopyString | src/system/expat/xmlparse.c:5572-5582 | The characters and the zero are one more finished string. |
| StringPools.Pool.CopyStringN | src/system/expat/xmlparse.c:5584-5596 | The first n characters are one more finished string, unless there are none. |
| StringPools.Pool.Append | src/system/expat/xmlparse.c:5556-5570 | Converting and growing in turn ends with all characters appended to the growing string, wherever a round stops. |
| StringPools.Pool.StoreString | src/system/expat/xmlparse.c:5609-5619 | The characters and a zero are appended, also when the block is full behind the characters. |
| StringPools.Pool.Intern | src/system/expat/xmlparse.c:5792-5814 | A name that is already known leaves no trace in the pool; a new one stays, with its zero, as one more finished string. |
| StringPools.Pool.Clear | src/system/expat/xmlparse.c:5519-5537 | Every block in use goes to the free list, none is lost and none is listed twice. |
| StringPools.MovedStays | src/system/expat/xmlparse.c:5634-5645 | Moving the growing string into another block changes no finished string. |
| StringPools.RestStays | src/system/expat/xmlparse.c:5647-5659 | When the growing string fills its block from the start, reallocating that block moves no finished string. |
| Contexts.ContextRoundTrip | src/system/expat/xmlparse.c:4903-5031 | A printed context, read into a cleared copy of the document type, restores every binding, the default namespace and the set of open entities. |
| Contexts.ReadPrinted | src/system/expat/xmlparse.c:4972-5031 | Reading undoes printing, for names without '=' and form feed and URIs without form feed. |
| Contexts.ItemsRestore | src/system/expat/xmlparse.c:4903-4970 | The items printed for a document type determine its bindings and open entities. |
| Contexts.Parser.GetContext | src/system/expat/xmlparse.c:4903-4970 | The string is the items of the document type with one separator between any two; of each binding's buffer the URI without the namespace separator behind it. |
| Contexts.Parser.SetContext | src/system/expat/xmlparse.c:4972-5031 | It succeeds exactly when no named prefix has an empty URI, and then every item has been applied. |
| Fips197.TablesAreInverse | src/framework/cim/AESencript.c:57-78 | The S-box has an inverse: it is a permutation of the bytes. |
| Fips197.TableIsAffineInverse | src/framework/cim/AESencript.c:57-78 | The table is the one section 5.1.1 of FIPS 197 constructs: every entry is the affine map of the inverse of its index in GF(2^8), with zero for the inverse of zero. |
| Fips197.HasInverse | src/framework/cim/AESencript.c:57-78 | Every byte but zero has an inverse in the field, the one its entry was made from. |
| Fips197.InverseIsUnique | src/framework/cim/AESencript.c:57-78 | There is no other inverse: the product of two bytes other than zero is not zero. |
| AesExample.ExampleIsEncrypted | src/framework/cim/AESencript.c:248-305 | The key and plain text of appendix C.1 of FIPS 197 give its cipher text. |
| AesExample.ExampleOnBytes | src/framework/cim/AESencript.c:248-305 | Any 16 bytes for which `Cipher` keeps its promise on that example are the bytes of the appendix. |
| Fips197.FastMixIsMix | src/framework/cim/AESencript.c:228-245 | The form with one sum and four doublings is the matrix product of section 5.1.3 of FIPS 197, for every column. |
| Fips197.InverseIsFold | src/framework/cim/AESencript.c:229-245 | The inverse matrix of section 5.3.3 is the column matrix after its own square. |
| Fips197.MixIsInvertible | src/framework/cim/AESencript.c:231-245 | The column products of sections 5.1.3 and 5.3.3 undo each other. |
| Fips197.ShiftBlockIsInvertible | src/framework/cim/AESencript.c:200-226 | The shifts of the rows undo each other. |
| Fips197.InvRoundsUndoRounds | src/framework/cim/AESencript.c:281-286 | Any number of rounds is undone by as many inverse rounds, for any keys. |
| Fips197.CipherIsBijective | src/framework/cim/AESencript.c:248-305 | For each key the cipher is a bijection on blocks, and the inverse cipher is its inverse. |
| AesCipher.RconIsPower | src/framework/cim/AESencript.c:80-99 | The stored constants are the powers of x that section 5.2 of FIPS 197 asks for. |
| AesCipher.Aes.KeyExpansion | src/framework/cim/AESencript.c:102-166 | For keys of 4, 6 and 8 words every word of the schedule satisfies the recurrence of section 5.2 of FIPS 197, in bounds. |
| AesCipher.Aes.AddRoundKey | src/framework/cim/AESencript.c:170-180 | Adds the four words of the round to the four columns. |
| AesCipher.Aes.SubBytes | src/framework/cim/AESencript.c:184-195 | Substitutes every byte of the state. |
| AesCipher.Aes.ShiftRows | src/framework/cim/AESencript.c:200-226 | The chains of assignments rotate row r by r places to the left. |
| AesCipher.Aes.MixColumns | src/framework/cim/AESencript.c:232-245 | Every column is multiplied by the matrix, although each byte is overwritten before the last is computed. |
| AesCipher.Aes.Cipher | src/framework/cim/AESencript.c:248-305 | Whatever the globals held before, and also when the plain text is the output of an earlier call, the output is the AES-128 cipher of sections 5.1 and 5.2 of FIPS 197; `AesExample.ExampleOnBytes` fixes it on the vector of appendix C.1. |

## Left out

- PrologRuns.CountersAgree: the counters are C `unsigned` and the claim ends at 2^32 - 1 tokens, behind which they can wrap around.
- ContentUniqueness.AcceptsExactlyPrintedModels: for declarations of fewer than 2^32 - 1 tokens, for the same reason; references to parameter entities inside a content model are taken as already replaced.
- Declarations.DeclaresExactly: declarations of elements have their own theorem, `ContentUniqueness.AcceptsExactlyPrintedModels`.
- PrologGrammar.PrologExactly: between the brackets of the internal subset it asks only that the machine stays there; what it accepts there is the subject of the two theorems on declarations.
- PrologGrammar.ExternalSubsetIsRead: INCLUDE sections nested fewer than 2^32 deep; the bytes of an IGNORE section are skipped by `ignoreSectionTok`, not by the machine.
- TagGrammar.MarkupIsExact: which characters of more than one byte names are made of is a parameter, as the tables are; in an end tag colons may stand anywhere behind the first character, as in the code.
- Documents.DocumentIsReported: two texts are not printed side by side, and an end tag must be one the scanner accepts, which it is whenever the tables let a name go on with what it may begin with (`Documents.NameCloses`).
- ElementDeclarations.ReadContent: handler calls for the default handler and the bookkeeping of `handleDefault` are not modelled; an element declaration handler is set.
- HashTables.HashTable.Lookup: hash values are unbounded and the hash function is arbitrary; the string hash itself is defined only for the names of module `NsAttributes`.
- NsAttributes.NsAttTable.Begin: the version counter starts from its initial constant as a 32-bit number; doubling beyond the range of `int` is not modelled.
- NamespaceParsing.NamespaceParser.DoElement: elements are a tree whose tags match, each with its declarations; module `TagRuns` shows when tags match, but the two are not put together into one claim about the bytes. The attributes of the element are in module `AttributeLists`.
- TagStacks.TagParser.StartTag: whether an element is in a namespace is a parameter; the expanded name itself is in module `NamespaceParsing`, and the name reported here is the one in the element's own buffer.
- TagRuns.ParseAll: the epilog processor that takes over behind the outermost element is not modelled, nor are content processors of external entities, which start at level 1.
- ContentRuns.ContentParser.DoContent: references to entities in content are reported as tokens and not expanded; end of input inside an element is decided by the tags, in `TagRuns`.
- AttributeLists.Attributes.StoreAtts: the index of the ID attribute; `Tables` stands for the name table and the value store, `BadValue` for any error of storing a value, and the declared type of an attribute is part of what `value` depends on. The binding records are those of `NamespaceParsing`; here the declarations in scope are a sequence. The byte in front of a string of the pool is a number of its own; what writing it does to the size field of a block that begins with the string is not modelled.
- AttributeValues.StoredIsNormalised: the texts of entities are taken as declarations leave them, made of complete characters, which `AttributeTokens.CompleteIsProper` shows to be enough; `storeEntityValue`, which builds them from scanned literals, is not modelled.
- EntityExpansion.AttributeParser.AppendAttributeValue: the event positions stored with an error.
- Transcoding.ToUtf8: UTF-16 as 16-bit units, which covers both byte orders; `|` of bits that cannot overlap is written as a sum.
- StringPools.Pool.Clear: blocks are released to the free list only; freeing them for good is trivial.
- Allocation failure, and overflow of sizes in C integers: sizes are unbounded and allocation succeeds.
- `ignoreSectionTok`, which does not see the close in `]]]>`, and the declaration, public identifier and entity value scanners.
- Encoding detection, unknown encodings, the two-byte scanners, and the Latin-1 and ASCII converters: near duplicates of the UTF-8 instance.
- External entity parsers, copying of document types, foreign document types, and line and column numbers.
- Setters, getters, version queries and error strings of the parser interface: no logic.
- The Objective-C headers and the device headers: declarations without bodies.

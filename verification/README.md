# BTF type graphs, verified

BTF describes the types of a program as a numbered list. Types refer to each other by id and to strings by offset, and
the graph that this makes may have cycles. libbpf transforms such graphs in place: it removes duplicates, cuts an object
off its base and re-attaches it, reorders and appends types, reads and writes them in either byte order, orders them for
a C header, and generates a loader program that brings an object into the kernel. This project models these
transformations and proves that they keep what the types mean.

What a type means is `Meaning.Means`: the tree of descriptors below the type, to any depth, with every id and string
offset replaced by what it leads to. Two graphs mean the same if these trees are equal to every depth.

Code that changes things step by step is modelled by methods with loops, over classes whose fields are those of the
source. A method is tied to a specification function, or to a predicate about its result. What those promise is proved
in lemmas beside it.

| part of the system | modules |
|---|---|
| descriptors, kinds, equality and compatibility of types | `BtfTypes`, `TypeEquality`, `Meaning` |
| iteration over ids and string offsets | `FieldIter`, `Rewrite` |
| hash map, string set, memory that may run out | `Hashmap`, `Strset`, `Memory` |
| deduplication: state, walk, passes, result | `CanonMap`, `GraphMatch`, `IdenticalTypes`, `DedupState`, `EquivWalk`, `Candidates`, `PrepPass`, `StringPass`, `PrimPass`, `StructPass`, `FwdPass`, `RefPass`, `CompactPass`, `CompactBytes`, `DedupResult`, `Dedup`, `DedupInputs` |
| distilling and relocating | `Pipe`, `DistillMark`, `Distill`, `DistillBase`, `StrOrder`, `NameIndex`, `Embedding`, `RelocateMap`, `Relocate`, `RoundTrip` |
| permuting, appending, finding by name | `Permute`, `AddBtf`, `AddBtfInputs`, `NameLookup` |
| type section as bytes, reading, writing, constructing | `Words`, `TypeSection`, `TypeCodec`, `TypeListing`, `RawBtf`, `RawIo`, `Construct` |
| order of definitions in a C header | `DumpOrder`, `DumpSpec`, `Dump`, `DumpInputs` |
| generated loader: machine, code, generator | `LoaderVm`, `LoaderFlow`, `LoaderCleanup`, `LoaderGen`, `LoaderEmit`, `LoaderMaps`, `LoaderProgs`, `Loader`, `LoaderRun` |
| line-info index | `LineInfo` |
| small helpers | `Options`, `Sets`, `SmallTypes` |

Conventions:

- A graph is `ValidGraph` if every descriptor has the layout of its kind and every id is in range, and type 0 is void.
- Where the source can run out of memory, a call of the model may fail (`Memory.Ask`), or it takes the outcome as an
  argument. With the argument `plenty` memory is always there, and then it is proved that the call does not fail for
  lack of it.
- Three walks of the source need not end. Two of them get a `budget` of steps in the model, the third is given up after
  more steps than there are types, and all three then have the outcome `Endless`. It is proved when a walk ends and when
  a budget suffices, so no claim is lost to this.
- The machine's own byte order is little-endian.

## Model

| member | source | states |
|---|---|---|
| `Dedup.Dedup` | src/btf.c:4202-4264 | If deduplication succeeds, base types are unchanged and every id has a final id, and these cover all that is left. Names read as before, and kinds stay, apart from forward declarations and empty enums that give way to a definition. No own type that is compared by content is there twice. If nothing can be resolved by name, every type means to every depth what its final type means. |
| `Dedup.MakeDeduplicated` | src/btf.c:4202-4264 | The passes, compaction and rewriting compose: renamed, merged and renumbered graphs satisfy the whole promise about the original graph. |
| `Dedup.FinalMeaning` | src/btf.c:6050-6164 | Where nothing is resolved by name, a type's final type unfolds as the type did, to every depth. |
| `Dedup.FinalDistinct` | src/btf.c:5082-5909 | After compaction no two own types of the compared kinds are equal, and none equals a base type. |
| `CanonMap.ResolveTypeId` | src/btf.c:5107-5112 | Following the canonical map ends, at the last element of the chain. The map never has a cycle in any state of any pass (`Acyclic` in `DedupState.State.Ok`). |
| `DedupState.State.constructor` | src/btf.c:4377-4432 | The initial state satisfies the invariant that all passes keep: valid graph, no cycle in the canonical map, replaced types keep name and kind. |
| `DedupState.HypotMapAdd` | src/btf.c:4318-4333 | Recording a pair adds one entry, or memory runs out and nothing is recorded. There is no other limit, because the entries are distinct ids. |
| `DedupState.ClearHypotMap` | src/btf.c:4335-4343 | All recorded pairs are forgotten, and no entry is left in the map. |
| `PrepPass.Prep` | src/btf.c:4908-4975 | Every base type becomes canonical and is entered in the table under its signature. Own types are untouched. |
| `StringPass.RemapStrOff` | src/btf.c:4468-4496 | The new offset reads as the old one did. Own strings have the one offset that base and new section have for them. |
| `StringPass.DedupStrings` | src/btf.c:4509-4549 | All own names move to a new section without duplicates, or stay if the section has none already. Each reads as before, and nothing else changes. |
| `PrimPass.PrimType` | src/btf.c:4983-5080 | A type of a primitive kind is mapped to an equal or compatible canonical type or to itself. Empty enums may be relinked to it. Meanings are kept if nothing is resolved by name. |
| `PrimPass.PrimTypes` | src/btf.c:5082-5092 | After the pass every own type of a primitive kind is mapped, and the invariant holds. |
| `EquivWalk.IsEquiv` | src/btf.c:5347-5514 | The walk ends, because each step records a pair. If it accepts, the recorded pairs form a closed relation: each pair is locally compatible, and each pair of referenced types has one canonical id, is recorded, or is identical to the recorded partner. While memory lasts, the answer and the recorded pairs are those of a function of the graph, the canonical map and the pairs at the start (`Walk`). |
| `GraphMatch.ClosedEquivalent` | src/btf.c:5254-5346 | What such a closed relation is worth: if nothing is resolved by name, the types it pairs unfold alike to every depth. |
| `GraphMatch.JustifiedUnfold` | src/btf.c:5254-5346 | The same for a pair that is justified by a closed relation without being recorded. |
| `IdenticalTypes.IdenticalSound` | src/btf.c:5140-5251 | Types that the depth-limited comparison accepts are equivalent, if empty enums match only their equals. |
| `IdenticalTypes.EndsExactly` | src/btf.c:5140-5251 | A budget that is enough for all comparisons exists if and only if no cycle consists of the kinds that keep the depth. |
| `IdenticalTypes.KnotsNeverEnd` | src/btf.c:5170-5176 | In any graph, on two copies of a typedef of a pointer to itself, the comparison ends with no budget. |
| `StructPass.MergeHypotMap` | src/btf.c:5542-5603 | The recorded pairs become permanent without making a cycle, and each replaced type keeps name and kind. |
| `StructPass.TryAll` | src/btf.c:5644-5702 | Candidates are tried until one matches or a walk fails. A match keeps name and kind, and meanings if nothing is resolved by name. If there are candidates and the walk to each fails, so does the search. |
| `StructPass.StructType` | src/btf.c:5644-5702 | A struct or union is mapped afterwards. The invariant is kept, and so are meanings if nothing is resolved by name. Without a candidate the type becomes canonical and nothing else changes. If the walk to every candidate fails, so does the call. |
| `StructPass.StructTypes` | src/btf.c:5704-5714 | After the pass all own structs and unions are mapped. |
| `DedupInputs.KnotsHang` | src/btf.c:5363-5384 | A graph on which the pass over structs ends with no budget: a struct with two members of one type, and the same struct with members of two copies of that type, which is a typedef of a pointer to itself. |
| `FwdPass.FillUniqueNamesMap` | src/btf.c:5916-5948 | For each name of a canonical struct or union the map has its one bearer, or says that there are several. |
| `FwdPass.ResolveFwdType` | src/btf.c:5950-5981 | A forward declaration is mapped to the one definition of its name and kind, and to nothing else. |
| `FwdPass.ResolveFwds` | src/btf.c:6015-6037 | The same for all own forward declarations. |
| `FwdPass.ResolvingKeepsMeaning` | src/btf.c:5950-6037 | The pass keeps meanings if and only if no own forward declaration has exactly one definition. |
| `FwdPass.ResolvingChangesMeaning` | src/btf.c:5950-6037 | An input on which it does not. |
| `RefPass.RefType` | src/btf.c:5740-5894 | The recursion ends. A type of a reference kind gets canonical references and is then mapped to an equal type or to itself. Every type resolves to a type of the same unfolding as before. |
| `RefPass.AllRefTypes` | src/btf.c:5896-5909 | After the pass every own type is mapped and leads to a canonical type. |
| `CompactPass.CompactTypes` | src/btf.c:6050-6099 | Closing ranks in place gives the list of survivors in their old order. The map of new ids is exact. |
| `CompactPass.NewIdOrder` | src/btf.c:6050-6099 | New ids rise with the old ones and stay below the new count. |
| `CompactPass.SurvivorIndex` | src/btf.c:6050-6099 | New ids are consecutive. |
| `CompactPass.RemapType` | src/btf.c:6107-6119 | Every reference becomes the final id, and the error for an id out of range is never taken. |
| `CompactPass.RemapTypes` | src/btf.c:6131-6164 | All own types have their final references. |
| `CompactBytes.MoveDown` | src/btf.c:6050-6099 | Moving a descriptor over a place that overlaps with its own is exact, and all bytes behind it stay. |
| `CompactBytes.CompactInMemory` | src/btf.c:6050-6099 | On bytes: moving survivors down in place while the index of starts is rewritten leaves what building the section afresh would give. The new index is what reading that section finds. |
| `CompactBytes.PackingCompacts` | src/btf.c:6050-6099 | Reading the packed bytes gives the compacted list of types. |
| `DedupResult.RemappedUnfold` | src/btf.c:6050-6164 | Every type unfolds as its final type does, to every depth. |
| `FieldIter.Iter.Next` | src/btf_iter.c:163-195 | Each call yields the next location of those that are left, and nothing once none is left. |
| `FieldIter.InitIter` | src/btf_iter.c:16-161 | It fails exactly on kinds that are not known. Otherwise all fields of the kind are left. |
| `FieldIter.FieldsExact` | src/btf_iter.c:16-195 | The iteration yields each word that the format declares to be a type id, or a string offset, exactly once, and no other word. |
| `FieldIter.IdField` | src/btf_iter.c:163-195 | The i-th location holds the i-th reference, and writing to it replaces that reference only. |
| `FieldIter.StrField` | src/btf_iter.c:163-195 | The same for string offsets. |
| `Rewrite.LookUpIds` | src/btf.c:6493-6510 | All ids of a type are looked up in a table. It fails exactly on unknown kinds. |
| `Rewrite.RewriteStrs` | src/btf_relocate.c:412-439 | All string offsets of a type are rewritten. It fails exactly if one has no new offset or the kind is unknown. |
| `Hashmap.Table.constructor` | src/hashmap.c:38-61 | An empty table. |
| `Hashmap.Table.Grow` | src/hashmap.c:101-128 | Growth keeps the multiset of entries and puts each in the bucket of its hash. It fails at the size limit, and otherwise only for lack of memory. Then nothing changes. |
| `Hashmap.Table.FindEntry` | src/hashmap.c:130-152 | It finds an entry if and only if one has an equal key. |
| `Hashmap.Table.Insert` | src/hashmap.c:154-204 | For each of the four strategies: when it fails, and otherwise exactly which entry is added and which one it replaces. It runs out of room only for lack of memory or with 2^58 entries or more. Keys that are unique stay unique unless the strategy is to append. |
| `Hashmap.Table.Find` | src/hashmap.c:206-218 | The value of an entry with the key, or nothing if there is none. |
| `Hashmap.Table.Delete` | src/hashmap.c:220-240 | Exactly one entry with the key goes, if there is one. |
| `Strset.Set.AddStr` | src/strset.c:173-197 | A known string keeps its offset. A new one is appended, and no string moves. It fails only for lack of memory or beyond the greatest offset, and then nothing changes. |
| `Strset.FromSection` | src/strset.c:39-82 | Every string of the section is indexed, under the first of equal ones, unless memory runs out. |
| `Pipe.StringPipe.AddStr` | src/btf.c:2150-2172 | The returned offset reads as the string and can be read with the length that the header states by then. The own set gets the string unless the base has it, and no other string. |
| `Pipe.StringPipe.RewriteStr` | src/btf.c:2223-2252 | The new offset reads in the target as the old one does in the source. Offsets that are remembered stay right. It fails only for lack of memory or of offsets. |
| `Pipe.StringPipe.AddType` | src/btf.c:2254-2287 | A copied type is the same but for string offsets, and each of those reads as before. It is refused exactly if its kind is unknown, before any string is added. The set of the target gets exactly the strings up to where the copy stopped. |
| `DistillMark.MarkAll` | src/btf.c:6326-6392 | The recursion ends. Exactly the base types that own types need are marked. It fails exactly if a needed type is of a kind that cannot be distilled. |
| `Distill.AddSkeleton` | src/btf.c:6394-6486 | A named struct, union or enum goes to the new base with its name, kind and size and without members. |
| `Distill.AddNeeded` | src/btf.c:6394-6486 | All needed types of one side are added once each, numbered in order. |
| `Distill.UpdateIds` | src/btf.c:6493-6510 | All references are looked up in the new numbering. |
| `DistillBase.DistillBase` | src/btf.c:6528-6627 | Every own or needed type has its place: named types of few kinds as skeletons in the distilled base, all others in full behind it. References lead to where their targets have gone. |
| `NameIndex.Search` | src/btf_relocate.c:102-124 | The leftmost entry that compares equal, or none if there is none. |
| `NameIndex.Sort` | src/btf_relocate.c:202-208 | The index is sorted by name and size and has the same entries. |
| `Embedding.MarkEmbedded` | src/btf_relocate.c:132-179 | Exactly the distilled structs and unions that own types embed are marked. It ends if and only if no member of an own struct or union is in a cycle of the kinds that the walk passes, or leads into one. |
| `Embedding.LongWalkNeverStops` | src/btf_relocate.c:150-176 | A walk with more steps than types never ends. |
| `Embedding.NeverStopsExactly` | src/btf_relocate.c:150-176 | A walk goes on forever if and only if it starts in such a cycle or leads into one. |
| `Embedding.SelfTypedefNeverMarked` | src/btf_relocate.c:150-176 | An input on which marking does not end: a struct with a member that is a typedef of itself. |
| `RelocateMap.CountNames` | src/btf_relocate.c:220-236 | For each name, how many structs and unions of the base bear it, counted up to 255. |
| `Relocate.LookUp` | src/btf_relocate.c:238-355 | The search and the scan that follows it visit exactly the distilled types that compare equal to a base type. |
| `Relocate.MapDistilledBase` | src/btf_relocate.c:184-380 | It succeeds if and only if each distilled type has the one base type that passes the tests on name, size and encoding, and maps it to that one. |
| `Relocate.ValidateDistilledBase` | src/btf_relocate.c:383-410 | It accepts exactly what a distilled base may hold. |
| `Relocate.Relocate` | src/btf_relocate.c:444-524 | Success is characterised exactly. Then distilled ids lead to the base types that stand for them, own ids are shifted, and all names read as before. |
| `RoundTrip.RoundTrip` | src/btf_relocate.c:444-524 | After distilling and relocating onto the original base, every own type is back under its id and means what it meant. References to own types and to named types of the base are what they were. |
| `RoundTrip.DistillAndRelocate` | src/btf.c:6528-6627 | The same for the two operations run one after the other. |
| `Permute.OrderMap` | src/btf.c:6704-6732 | The map is accepted if and only if it is a permutation of the own ids. |
| `Permute.Permute` | src/btf.c:6673-6780 | It succeeds exactly for permutations of objects of known kinds. On failure types and index are unchanged. On success each type is where the map says, with rewritten references, the index is right and the total size is the same. |
| `Permute.PermutedMeans` | src/btf.c:6657-6780 | Every type means under its new id what it meant under the old one. |
| `AddBtf.AddBtf` | src/btf.c:2299-2426 | All or nothing. On success the own types of the source are at ids shifted by one constant, with equal strings that can be read, own references shifted and base references kept. On every failure, also one of memory midway, type bytes, index and readable strings are as before, although bytes were copied behind the visible ones and the stated string length had grown. The string set has the strings of the types before the one that failed: it is unchanged if and only if it or the base had them all, and those that are new have offsets that cannot be read. A source over another base is refused. Otherwise, with memory and room enough, the call fails if and only if the source has a type of an unknown kind. |
| `AddBtf.CopyTypes` | src/btf.c:2344-2390 | Types are rewritten one by one in the copied bytes, behind the visible types. Those that are still to come are intact. |
| `AddBtf.AppendedMeans` | src/btf.c:2299-2426 | Every appended type means what it meant in the source. |
| `AddBtfInputs.FailedAppendShows` | src/btf.c:2410-2426 | A source whose first type has a new name and whose second type is of an unknown kind: the append fails, and then the name is found at an offset that cannot be read. |
| `NameLookup.CheckSorted` | src/btf.c:1117-1139 | A named start is set only if own names are sorted and all types before it are anonymous. |
| `NameLookup.FindSorted` | src/btf.c:1141-1208 | Binary search finds the least matching id. |
| `NameLookup.FindLinear` | src/btf.c:1166-1208 | So does the scan. |
| `NameLookup.FindByNameKind` | src/btf.c:1166-1208 | The answer is the least matching id, with the base searched first, whichever way it is found. |
| `NameLookup.OneLeast` | src/btf.c:1166-1208 | There is only one such answer, so both ways agree. |
| `TypeSection.ParseTypeSec` | src/btf.c:607-642 | Parsing succeeds exactly if descriptors fill the section. In the other byte order it also turns them round, and needs known kinds. |
| `TypeSection.SwapRest` | src/btf.c:510-605 | Exactly the words behind the header are turned round, for known kinds only. |
| `TypeSection.StartsFollow` | src/btf.c:607-642 | Starts follow each other by the sizes of the descriptors. |
| `TypeCodec.DecodeEncode` | src/btf.c:457-501 | Reading a written descriptor gives it back, and its size is the one that the size function states. |
| `TypeCodec.EncodeDecode` | src/btf.c:457-501 | Writing a descriptor that was read gives its bytes back. |
| `RawIo.ParseHdr` | src/btf.c:289-381 | The header is read in either byte order and checked. |
| `RawIo.NewBtf` | src/btf.c:1356-1413 | Reading a block of bytes in steps, turning them round in place, gives what the specification of parsing gives. |
| `RawIo.GetRawData` | src/btf.c:1849-1910 | Writing in steps gives the specified bytes. It fails exactly if unknown kinds had to be turned round. |
| `RawBtf.RoundTrip` | src/btf.c:1849-1910 | Writing in either byte order and reading again gives the same header, types, index and strings. |
| `Construct.Run` | src/btf.c:2204-2215 | After any sequence of construction calls, each of which may fail in any way, the index and length are what reading the type bytes afresh computes. Types other than the last are never touched by a later call. |
| `Construct.Builder.AddTypeMem` | src/btf.c:2174-2178 | Room is made without changing what can be seen. |
| `Construct.Builder.CommitType` | src/btf.c:2204-2215 | A type is taken up whole or not at all. |
| `Construct.Builder.AddInt` | src/btf.c:2437-2477 | When it is refused, and otherwise exactly the descriptor that is appended. Nothing changes on failure. This holds for all calls that follow. |
| `Construct.Builder.AddFloat` | src/btf.c:2487-2520 | Refused without a name or for another size. Otherwise a float is appended. |
| `Construct.Builder.AddRefKind` | src/btf.c:2534-2563 | A pointer, typedef, qualifier or tag that refers to a type. |
| `Construct.Builder.AddArray` | src/btf.c:2586-2615 | An array with its index and element types. |
| `Construct.Builder.AddComposite` | src/btf.c:2618-2647 | A struct or union without members. |
| `Construct.Builder.AddField` | src/btf.c:2699-2756 | The last type, a struct or union, has one more member and the kind flag if that is a bit-field. All earlier bytes stay. |
| `Construct.Builder.AddEnumCommon` | src/btf.c:2758-2790 | An enum without values. |
| `Construct.Builder.AddEnumValue` | src/btf.c:2822-2871 | One more value. A negative one makes the enum signed, and one that does not fit is refused. |
| `Construct.Builder.AddEnum64Value` | src/btf.c:2902-2946 | One more value, in two words. |
| `Construct.Builder.AddFwd` | src/btf.c:2957-2983 | A forward declaration of a struct or union; one of an enum is an empty enum. |
| `Construct.Builder.AddFunc` | src/btf.c:3078-3096 | A function, whose linkage is patched into the appended descriptor. |
| `Construct.Builder.AddFuncProto` | src/btf.c:3110-3136 | A prototype without parameters. |
| `Construct.Builder.AddFuncParam` | src/btf.c:3146-3190 | One more parameter. |
| `Construct.Builder.AddVar` | src/btf.c:3202-3240 | A variable with one of three linkages. |
| `Construct.Builder.AddSection` | src/btf.c:3254-3283 | A data section, or with size 0 a location section (src/btf.c:3571-3597), without entries. |
| `Construct.Builder.AddDatasecVarInfo` | src/btf.c:3295-3334 | One more variable of the section. |
| `Construct.Builder.AddDeclTag` | src/btf.c:3336-3401 | A tag or attribute of a declaration or of one component of it. |
| `Construct.Builder.AddLocParam` | src/btf.c:3414-3440 | A location parameter of 1 to 16 bytes. |
| `Construct.Builder.AddLocParamValue` | src/btf.c:3449-3481 | One more value of it. |
| `Construct.Builder.AddLocProto` | src/btf.c:3494-3512 | A location prototype without parameters. |
| `Construct.Builder.AddLocProtoParam` | src/btf.c:3522-3557 | One more parameter. |
| `Construct.Builder.AddLocsecLoc` | src/btf.c:3599-3638 | One more location. |
| `Construct.Builder.AddType` | src/btf.c:2254-2294 | A copy of a type of another object. |
| `Construct.Builder.AddAll` | src/btf.c:2299-2426 | Copies of all types of another object, or nothing that can be seen. |
| `TypeListing.ListingMore` | src/btf.c:2299-2426 | Types written behind a section are listed behind its types, and those stay as they are. |
| `Dump.Dumper.Order` | src/btf_dump.c:524-672 | What a type needs by value is queued before it, and nothing queued is moved. The link, the states and the queue are those of a function of the graph, the states and the budget (`DumpSpec.Visit`). |
| `Dump.Dumper.Enqueue` | src/btf_dump.c:432-448 | Everything that a queued struct or union contains by value is queued already. |
| `Dump.Dumper.DumpType` | src/btf_dump.c:336-356 | A call for a named struct or union writes it out, after everything it contains. A call that fails writes nothing, and later calls are not affected if it has also queued nothing and marked no pointer. |
| `Dump.DumpTypes` | src/btf_dump.c:336-356 | In any run of calls up to the first failure, each struct or union comes after all named ones that it contains by value, through arrays, modifiers, typedefs and anonymous members. Definitions are written at most once. |
| `Dump.DumpAnyway` | src/btf_dump.c:336-356 | The same for runs that go on after failed calls, as long as these queue nothing and mark no pointer. |
| `Dump.DumpFirst` | src/btf_dump.c:336-356 | One call for a new dumper. If every cycle passes through a struct or union, it ends with enough nesting. For a type in a cycle that does not, it never succeeds. It does not end if each type of that cycle leads to one other only, or if no struct contains itself and all kinds are known. |
| `DumpSpec.CallsEnd` | src/btf_dump.c:524-672 | If every cycle passes through a struct or union, a stated nesting is enough for every call in every state. |
| `DumpSpec.FirstCallsEndExactly` | src/btf_dump.c:524-672 | Where no struct contains itself and all kinds are known, a budget is enough for first calls for all types if and only if every cycle passes through a struct or union. |
| `DumpInputs.SelfTypedefNeverEnds` | src/btf_dump.c:524-672 | An input on which a call does not end: a typedef of itself. |
| `DumpInputs.ProtoLoopStops` | src/btf_dump.c:524-672 | An input with a cycle through a prototype where the call ends, with another error. |
| `DumpInputs.MarkedPointerMisleads` | src/btf_dump.c:556-559 | Two calls after which a struct has been written out without what it contains: the first fails and marks a pointer. |
| `DumpInputs.LostQueueMisleads` | src/btf_dump.c:336-356 | Two more: the first fails and leaves a struct in the queue that is never written out. |
| `DumpOrder.RankedExactly` | src/btf_dump.c:524-672 | Ranks that fall along all references outside structs and unions exist if and only if there is no such cycle. |
| `LineInfo.Dissect` | src/bpf_prog_linfo.c:22-86 | It succeeds exactly if the records can be divided by function in order, with rising addresses in all functions but the last. Then starts and counts are those of the division. |
| `LineInfo.Partition` | src/bpf_prog_linfo.c:22-86 | Every record belongs to exactly one function. |
| `LineInfo.NewProgLinfo` | src/bpf_prog_linfo.c:100-178 | An index is built exactly if the report is acceptable. |
| `LineInfo.ProgLinfo.LFindAddrFunc` | src/bpf_prog_linfo.c:180-216 | The answer is the record before the first one above the address. |
| `LineInfo.ProgLinfo.LFind` | src/bpf_prog_linfo.c:218-246 | The same for instruction offsets. |
| `LineInfo.FunctionAnswers` | src/bpf_prog_linfo.c:180-216 | In all functions but the last this is the record with the greatest address not above the query. |
| `LineInfo.SplitsExactly` | src/bpf_prog_linfo.c:180-216 | Every answer divides the records of a function, those up to it not above the query and those after it above, if and only if their addresses rise. |
| `LineInfo.GreatestExactly` | src/bpf_prog_linfo.c:180-216 | Every answer has the greatest address not above the query if and only if the first address is least, the last is greatest, and before each new maximum comes the greatest of those below it. |
| `LineInfo.LastFunctionUnchecked` | src/bpf_prog_linfo.c:46-83 | Records that are accepted, and a query whose answer does not have the greatest address not above it. |
| `LineInfo.ClimbingIsEnough` | src/bpf_prog_linfo.c:180-216 | Records that do not rise, and for which every answer has the greatest address. |
| `LoaderGen.Gen.constructor` | src/gen_loader.c:115-168 | The initial jump skips exactly the cleanup block, for every number of maps and programs and with or without a log. |
| `LoaderGen.Gen.AddData` | src/gen_loader.c:170-193 | Data gets its own place, and an error sticks. |
| `LoaderGen.Gen.EmitCheckErr` | src/gen_loader.c:302-314 | The emitted jump goes to the cleanup label. A distance that does not fit in 16 bits is refused. |
| `LoaderEmit.EmitSysBpf` | src/gen_loader.c:286-295 | The command has the number of its purpose, and its outcome is in R7. |
| `LoaderEmit.MoveBlob2Blob` | src/gen_loader.c:240-248 | Six slots that change no recorded slot. |
| `LoaderEmit.MoveCtx2Blob` | src/gen_loader.c:258-270 | The skipping jump lands behind the store. |
| `LoaderEmit.EmitDebug` | src/gen_loader.c:317-343 | Code that changes nothing that matters, of the stated length. |
| `LoaderEmit.EmitSysCloseStack` | src/gen_loader.c:375-379 | The jump over the close lands behind it. |
| `LoaderEmit.EmitSysCloseBlob` | src/gen_loader.c:381-387 | The same for a slot of the blob. |
| `LoaderMaps.LoadBtf` | src/gen_loader.c:470-500 | The descriptor of the loaded BTF is recorded in its stack slot. |
| `LoaderMaps.MapCreate` | src/gen_loader.c:502-589 | The descriptor of the map is recorded in the next slot, or on the stack for an inner map. Maps come in order. |
| `LoaderMaps.EmitCopyInitialValue` | src/gen_loader.c:1159-1176 | The jump over the copying lands behind the code that the caller goes on with. |
| `LoaderMaps.MapUpdateElem` | src/gen_loader.c:1197-1222 | One command, checked. |
| `LoaderMaps.PopulateOuterMap` | src/gen_loader.c:1224-1251 | One command, checked. |
| `LoaderMaps.FuncPtrMapCreate` | src/gen_loader.c:1261-1322 | Three commands, each checked, and a slot behind those of the object. Pointer counts that a jump could not span are refused. |
| `LoaderMaps.MapFreeze` | src/gen_loader.c:1324-1340 | One command, checked. |
| `LoaderProgs.RecordExtern` | src/gen_loader.c:627-646 | The symbol is noted down, or memory runs out. |
| `LoaderProgs.GetKsym` | src/gen_loader.c:649-676 | A symbol that is known is counted once more and takes no new slot. A new one is added at the end, or memory runs out and nothing is added. |
| `LoaderProgs.EmitReloKfunc` | src/gen_loader.c:729-798 | All hand-counted jumps land on instructions, on each path. |
| `LoaderProgs.EmitReloKsymTypeless` | src/gen_loader.c:819-850 | The same. |
| `LoaderProgs.EmitReloKsymBtf` | src/gen_loader.c:866-914 | The same. |
| `LoaderProgs.CleanupRelos` | src/gen_loader.c:967-997 | Symbols are forgotten after code that closes their modules. |
| `LoaderProgs.ProgLoad` | src/gen_loader.c:1018-1148 | One program load whose descriptor is recorded in the next stack slot. Modules are closed before its outcome is checked. |
| `LoaderCleanup.CleanupRuns` | src/gen_loader.c:147-167 | From the cleanup label the machine closes every positive descriptor in the stack slots and in the map slots and returns R7. |
| `Loader.Finish` | src/gen_loader.c:389-437 | If generation ends without error, every jump fits in 16 bits and lands on an instruction of the program. For every outcome of every helper and every initial context and stack, the run ends. If no error check has seen a negative value, it has issued all commands in order, returns 0 and hands out the descriptors of all maps and programs. Otherwise it returns the negative value that was seen, has issued nothing after a failed command, and has closed every descriptor in its slots. |
| `Loader.ExitValue` | src/gen_loader.c:389-417 | A run returns 0 if and only if no checked value was negative, and otherwise the one that was. |
| `LoaderRun.Run` | src/gen_loader.c:115-1340 | For every sequence of calls between start and finish: without an error there are as many maps and no more programs than the loader was started for, all jumps land, and every run of it does what `Loader.Finish` states, with the commands of the calls in their order. |

## Findings

Properties that do not hold of the code for all inputs. Each has an input that shows it and a condition under which the
property does hold. The condition is exact unless the entry says otherwise.

- The comparison of identical types need not end. `DedupInputs.KnotsHang` gives a graph on which the pass over structs
  does not come back: two members of one type meet members of two copies of that type, which is a typedef of a pointer
  to itself. `IdenticalTypes.EndsExactly`: the comparison ends on all pairs if and only if no cycle consists only of
  the kinds at src/btf.c:5170-5176, which keep the depth.
- Resolving forward declarations changes meanings. `FwdPass.ResolvingChangesMeaning` gives a graph.
  `FwdPass.ResolvingKeepsMeaning`: the forward pass (src/btf.c:5950-6037) keeps meanings if and only if no own forward
  declaration has exactly one definition. The source declares this a heuristic. Meanings change in two more places, to
  which this condition does not apply: an empty enum gives way to an enum with values in the pass over primitive kinds
  (src/btf.c:4983-5080), and a forward declaration to a definition that it meets inside the walk (src/btf.c:5347-5514,
  5542-5603). For the whole of deduplication the condition is sufficient only: `Dedup.Dedup` keeps meanings where
  nothing is resolved by name.
- Looking up an address in the last function may give the wrong record, because `dissect_jited_func` does not check
  that its addresses rise. `LineInfo.LastFunctionUnchecked` gives the addresses 8, 9, 3 and the query 9, which is
  answered with 3. `LineInfo.GreatestExactly`: every answer has the greatest address not above the query if and only
  if the first record is least, the last is greatest, and before each record that is above all earlier ones comes the
  greatest of those below it. Rising addresses are enough, and they are what the stronger property of
  `LineInfo.SplitsExactly` needs.
- Marking embedded types need not end. `Embedding.SelfTypedefNeverMarked` gives a struct with a member that is a
  typedef of itself. `Embedding.MarkEmbedded`: marking ends if and only if no member of an own struct or union is in a
  cycle of typedefs, modifiers, tags and arrays, or leads into one.
- Ordering types for a C header need not end. `DumpInputs.SelfTypedefNeverEnds` gives a typedef of itself.
  `Dump.DumpFirst`: calls end if every cycle passes through a struct or union. A call for a type in a cycle that does
  not never succeeds, and it does not end if each type of that cycle leads to one other only. A cycle through a
  prototype may end with another error that is met first (`DumpInputs.ProtoLoopStops`).
  `DumpSpec.FirstCallsEndExactly`: where no such error is there to meet, because all kinds are known and no struct
  contains itself (by value, or an anonymous one also behind a pointer), calls end if and only if every cycle passes
  through a struct or union.
- After a failed call, a struct can be written out without what it contains. `DumpInputs.MarkedPointerMisleads`: a
  pointer is marked as ordered although ordering its target has failed (src/btf_dump.c:556-559).
  `DumpInputs.LostQueueMisleads`: what a failed call has queued is never written out. `Dump.DumpAnyway`: while failed
  calls queue nothing and mark no pointer, everything is in place. This condition is sufficient.
- A failed append is visible through `btf__find_str`. `AddBtfInputs.FailedAppendShows` gives a source whose first type
  has a new name and whose second type is of an unknown kind: afterwards the name is found at an offset that cannot be
  read. `AddBtf.AddBtf`: the set of strings is as before if and only if it or the base had all strings that were
  copied before the failure; on an unknown kind these are the strings of all types before it. Answers by id and by offset are as before in any case.

Where the documentation and the code disagree, the model follows the code:

- src/hashmap.h says that a lookup of a key with several values gives the one inserted last. Growth reverses chains, so
  the model claims no order among equal keys.
- src/btf_relocate.c compares the kind flag of the base type where a forward declaration meets a struct or union.
- `btf__permute` reads the first entry of the id map before it looks at the count, if there is no base. `Permute.Permute`
  therefore requires a map that is not empty in that case.
- The loader closes an inner map once it has been used and keeps its stack slot, so that a later failure closes the same
  number again. `Loader.Finish` states that descriptors in slots are closed, not that they are closed once.

## Left out

- .BTF.ext: parsing, byte order and the rewriting of ids and strings in it (src/btf.c:3640-4130, 6238-6316).
- Checks of a parsed object for consistency (src/btf.c:644-832): the model states well-formedness as a precondition.
- Loading from ELF files, from the file system and from the kernel (src/btf.c:1425-1842, 1949-2032, 6170-6236): I/O.
- Text that src/btf_dump.c prints (src/btf_dump.c:743-2719): only the order of definitions is modelled.
- Growth of memory by a quarter (src/btf.c:205-237): memory grows to what is needed, or a call fails.
- The cached raw form of an object and its invalidation (src/btf.c:1912-1929, 2034-2114).
- Dedup.Dedup: meanings are claimed where nothing is resolved by name; otherwise names and kinds are. Resolution by name is a heuristic. `FwdPass.ResolvingKeepsMeaning` says when the forward pass changes meanings; for empty enums in the pass over primitive kinds, and for forward declarations that meet a definition inside the walk, no exact condition is stated.
- Dedup.Dedup: states what success means; a run may also fail for lack of memory, on an unknown kind, or with `Endless`.
- Relocate.Relocate: kinds of structs, unions and forward declarations are compared as far as the code does, by name and size.
- NameIndex.Sort: sorts by insertion where the source calls qsort; only the order and the entries matter.
- LineInfo.NewProgLinfo: indexes records without the 32-bit product of position and record size.
- Loader.Finish: addresses stored into the blob for the kernel are values without meaning to the machine, and the byte order of the blob is not modelled. Descriptors of modules are closed on the path after a program load and are not part of the claim about cleanup.
- Embedding.MarkEmbedded: the endless walk is an outcome, where the source does not return.
- The other files of the library (object loading, ring buffers, links, USDT, netlink): not part of this model.

# A verified model of the protobuf repository's Lua binding, conformance tools and generators

The project models the parts of the repository whose correctness depends on state, recursion or
arithmetic, and proves what they promise.

| files | what they model |
|---|---|
| `LuaState` `LuaSteps` | the state of the Lua binding (wrappers with uservalue slots, weak caches, upb objects, arenas in fuse groups, definition pools) and every operation on it as a function |
| `LuaBinding` | the same operations as methods that change a Lua state and a upb heap statement by statement; each is proved to be its function |
| `LuaMemory` `LuaTypes` `LuaRuns` `LuaTheorems` | the invariant of the object graph, kept by every step of every run, and what follows from it |
| `LuaEffects` | what each operation does, told by the types of objects and the groups of arenas: when it raises, what it returns, and all that it changes |
| `TrieSpec` `FailureListTrie` | the wildcard trie of conformance failure lists, as a value and as linked nodes changed in place |
| `Wire` | the wire-format builder, with a decoder for the Protocol Buffers encoding |
| `LuaLiteral` | the string-literal printer of the Lua generator, with a lexer for section 3.1 of the Lua 5.4 Reference Manual |
| `DescriptorGraph` `BalancedFuse` | the depth-first collection and the fuse schedule of the benchmarks |
| `FailureListText` `FailureListMerge` `FailureListAlign` `FailureListUpdate` | the script that updates failure lists: its text functions, its two passes and both together |
| `DefaultsEscape` | placeholder replacement and the array encodings of edition defaults |
| `ForkPipe` | the tester's pipe protocol against a testee that may read, write, pause or die at any point |
| `IntCheck` | the numeric range checks of the Lua binding under IEEE 754 rounding |
| `Common` | types and facts that several of these share |

How the Lua runs are modelled: a run is any sequence of events from the empty state. An event is
an API call with any arguments a Lua program can hold, an address from malloc (any address that is
not in unreleased memory, so addresses are reused), or a collection of any set of unreferenced
objects. Array and map writes are two events, because the C code stores the pointer before it
fuses the arenas; the collector may run between the two. A upb arena is represented by its
`lupb_Arena`, and a group's memory is released when the last `lupb_Arena` in it is finalised.
Fusing two arenas always succeeds, as the binding assumes.

Results that differ from what the code or its documentation suggests:

- `upb.Map(key, MessageClass)` stores the definition in slot 1 and then the arena in the same slot
  (src/lua/msg.c:476, :502-507). Such a map rejects every message, and no message field accepts
  it, for as long as it lives; `NewContainers` and `MessageMapIsUseless` prove it.
- `PackedImpl` writes the number of elements, not the number of bytes, before packed data
  (src/conformance/binary_wireformat.h:171). `PackedIsLengthPrefixed` and `PackedVarints` say
  exactly when that is a length prefix.
- A failure list stays sorted when lines are added only if comparing a whole added line with a
  name agrees with comparing the two names. `OrderedExactly` gives the exact condition;
  `SpaceIsNotEnough` is a sorted list that an added line puts out of order although every
  character of a name exceeds space; `SortedWhenPlain` gives a condition on characters that
  suffices.
- A comment or blank line among the removals removes every comment and blank line of the list:
  `CommentsSurvive` says exactly when they survive.
- An added line without its newline can run into the line after it, and aligning a failure with a
  blank message takes its newline away. `MergeReadsBack`, `KeepsLines`, `AlignTwice` and
  `UpdateKeepsLines` say exactly when the first pass, the second, a repeated alignment and the
  whole update keep the lines of a file; `NotSteady` is a file that a repeated alignment changes.
- `replace_placeholder` ends exactly when the placeholder is not empty (`RoundsEndExactly`).
- The largest 64-bit integers are pushed to Lua as doubles that the matching check refuses:
  `RefusedExactly` says which, and `CheckAfterPush` that an integer survives push and check exactly
  when a double can hold it.
- Two tries with the same patterns can answer a query that itself has a wildcard differently
  (`OrderMattersForWildcards` is the smallest instance).
  `OrderIrrelevantExactly` gives the exact condition, that at most one stored pattern unifies with
  the query; without wildcards in the query it always holds.

## Model

| member | source | states |
|---|---|---|
| LuaTheorems.ReachableIsUnreleased | src/lua/msg.c:81-86 | in every state of every run, between a write and its fuse too, whatever a live wrapper reaches through pointers, cycles included, is in unreleased memory |
| LuaTheorems.CacheIsSound | src/lua/msg.c:137-164 | a cache hit is a live wrapper of that address with an unreleased object; an object has at most one live wrapper; an address malloc may reuse never hits |
| LuaTheorems.TypesAgree | src/lua/msg.c:88-91 | over every run a message wrapper's definition slot names its object's real type, and every pointer reachable from a live wrapper respects the declared type |
| LuaTheorems.PoolsFreedOnce | src/lua/def.c:749-754 | a pool is freed exactly once when its owner is gone, and never while a wrapper of one of its definitions is live |
| LuaTheorems.FilePoolIsOwner | src/lua/def.c:645-650 | `file:defpool()` returns the pool's one owner and makes no second finalisable object |
| LuaTheorems.FieldAcceptsExactly | src/lua/msg.c:749-757 | comparing definition wrappers by identity is exact: a field accepts an object if and only if it has the declared type |
| LuaTheorems.ContainerAcceptsExactly | src/lua/msg.c:287-294 | an array or map of messages accepts exactly the messages of the type its wrapper remembers |
| LuaTheorems.NewContainers | src/lua/msg.c:476-513 | just after `upb.Map(key, MessageClass)` the map rejects every message and no field accepts it; `upb.Array(MessageClass)` remembers that class |
| LuaTheorems.MessageMapIsUseless | src/lua/msg.c:491-571 | in every later state of every run in which such a map is alive, every write to it that is not a deletion raises and no message field accepts it |
| LuaTheorems.StepContinues | src/lua/msg.c:88-91 | no step brings a collected Lua object back, and none changes the uservalue slots of an existing one, or what it wraps |
| LuaTheorems.SetThenGet | src/lua/msg.c:794-866 | an object assigned to a field is what the field reads: the same Lua object, no new wrapper |
| LuaTheorems.ArrSetThenGet | src/lua/msg.c:414-449 | the same for an array slot, once the write is complete |
| LuaTheorems.MapSetThenGet | src/lua/msg.c:522-571 | the same for a map entry; every other entry reads as before |
| LuaTheorems.MapDeleteThenGet | src/lua/msg.c:560-562 | a deleted entry reads as nil and no other entry changes |
| LuaEffects.MsgGetExact | src/lua/msg.c:794-812 | reading a field raises iff there is none; a field that holds no object and an absent message read as no object; any other reads as the one wrapper of the object under its name, live or new, and an absent array or map is made empty in the message's group; nothing else changes |
| LuaEffects.ArrGetExact | src/lua/msg.c:440-449 | reading an array raises iff the index is outside 1 to its length; an element of an array of messages is the one wrapper of the message at that index |
| LuaEffects.MapGetExact | src/lua/msg.c:522-534 | reading a map raises iff the key has the wrong type; an entry of a map of messages is the one wrapper of the message under the key, and none iff there is no entry |
| LuaEffects.MsgSetExact | src/lua/msg.c:822-869 | writing a field completes iff it exists and takes the value, an object iff it has exactly the declared type; then one pointer changes, the two groups are joined or the string is copied into the message's group, and nothing else changes |
| LuaEffects.ArrWriteExact | src/lua/msg.c:414-424 | writing an array completes iff the index is at most one past the end and the array takes the value, a message iff it has exactly the remembered type; one slot changes and only a write at the end makes it longer |
| LuaEffects.MapWriteExact | src/lua/msg.c:555-565 | the same for a map: nil takes out exactly the entry of the key |
| LuaEffects.DeclaredType | src/lua/msg.c:749-757 | an object has a field's declared type iff its wrapper has the field's kind and scalar types and remembers the submessage of the message's own pool |
| LuaEffects.FuseExact | src/lua/msg.c:193-204 | fusing joins exactly the groups of the two arenas: any others that were apart stay apart |
| LuaEffects.FinishExact | src/lua/msg.c:426-428 | the fuse that ends a write makes exactly the groups that the write promised |
| LuaEffects.CollectReleases | src/lua/msg.c:206-210 | a collection releases a group iff it takes the last live arena of the group |
| LuaEffects.FullCollection | src/lua/msg.c:206-210 | no leaks: all that the program cannot reach is garbage and nothing else ever is, and after collecting it a group is released iff the program reaches none of its arenas |
| LuaEffects.NewMessageExact | src/lua/msg.c:652-664 | a new message is an empty object of its class with a new wrapper, in an arena alone in its group; nothing else changes |
| LuaEffects.NewArrayExact | src/lua/msg.c:370-391 | the same for an array, which remembers the class it was made with |
| LuaEffects.NewMapExact | src/lua/msg.c:491-513 | the same for a map, which never remembers one |
| LuaEffects.DecodeExact | src/lua/msg.c:930-950 | decoding adds exactly the decoded objects and one wrapper, all in an arena alone in its group |
| LuaEffects.PushDefExact | src/lua/def.c:686-718 | pushing a definition returns its wrapper, the live one if there is one |
| LuaMemory.TogetherReleased | src/lua/msg.c:186-204 | arenas of one group, a pending fuse counted, are released together |
| LuaMemory.KeepFuse | src/lua/msg.c:193-204 | fusing two groups of held arenas keeps the memory invariant |
| LuaRuns.KeepArrWrite | src/lua/msg.c:414-424 | storing a pointer in an array before the fuse keeps the invariant in which the two groups already count as one, because the stack holds both wrappers |
| LuaRuns.KeepMapWrite | src/lua/msg.c:555-565 | the same for a map entry and for a deletion |
| LuaMemory.KeepFinish | src/lua/msg.c:426-428 | the fuse that follows restores the full invariant |
| LuaMemory.KeepCollect | src/lua/msg.c:206-210 | collecting any unreferenced set of objects, arenas and pools among them, keeps the memory invariant |
| LuaTypes.RawEqualDecides | src/lua/msg.c:749-757 | two live definition wrappers are the same object if and only if they wrap the same definition |
| LuaTypes.PushWrapperKeeps | src/lua/def.c:686-718 | finding or making a definition wrapper keeps one live wrapper per definition and one owner per pool |
| LuaRuns.StepKeeps | src/lua/msg.c:81-91 | every enabled event keeps the whole invariant: memory, caches, types, pools |
| LuaRuns.RunKeeps | src/lua/msg.c:81-91 | so it holds in every state of every run |
| LuaMemory.KeepArena | src/lua/msg.c:182-186 | a new arena keeps the memory invariant and the group of every other arena, and brings no released arena back |
| LuaBinding.Binding.FuseObjs | src/lua/msg.c:193-204 | merges the groups of the arenas in the two objects' slots |
| LuaMemory.KeepWrapper | src/lua/msg.c:159-164 | a cache entry for a new wrapper of an object that has none, in an arena of the object's group, keeps the memory invariant |
| LuaBinding.Binding.MsgPushNew | src/lua/msg.c:652-664 | is `NewMessage`: object, arena, both slots, cache entry |
| LuaBinding.Binding.ArrayNew | src/lua/msg.c:370-391 | is `NewArray` |
| LuaBinding.Binding.MapNew | src/lua/msg.c:491-513 | is `NewMap`, with the definition overwritten by the arena in slot 1 |
| LuaBinding.Binding.DefPoolNew | src/lua/def.c:725-747 | is `NewPool`: the pool is seeded in its own cache |
| LuaBinding.Binding.DefPoolPushWrapper | src/lua/def.c:686-718 | is `PushWrapper`: a cached wrapper, or a new one that holds its pool |
| LuaBinding.Binding.PushSub | src/lua/def.c:69-74 | is `PushSubDef`: the wrapper of a field's submessage definition, from the same pool |
| LuaBinding.Binding.ToValue | src/lua/msg.c:243-297 | is `ToMsgVal`: raises on the wrong kind or type, copies strings into the container's arena |
| LuaBinding.Binding.ArrayNewindex | src/lua/msg.c:414-431 | is the array write followed by its fuse, or raises and changes nothing |
| LuaBinding.Binding.MapNewindex | src/lua/msg.c:555-571 | is the map write or deletion followed by its fuse, or raises |
| LuaBinding.Binding.MessageNewindex | src/lua/msg.c:822-869 | is `MsgSet`: checks, fuses, then stores |
| LuaBinding.Binding.FieldObject | src/lua/msg.c:691-742 | is `FieldWrapper`: the cached wrapper, or a new one with the container's arena and the submessage's definition |
| LuaBinding.Binding.ElementObject | src/lua/msg.c:672-683 | is `ElemWrapper`: the cached wrapper, or a new one with the container's arena and definition |
| LuaBinding.Binding.MessageIndex | src/lua/msg.c:794-812 | is `MsgGet`: absent repeated and map fields are made in the wrapper's arena, an absent submessage is nil |
| LuaBinding.Binding.ArrayIndex | src/lua/msg.c:440-449 | is `ArrGet`, with its bounds check |
| LuaBinding.Binding.MapIndex | src/lua/msg.c:522-534 | is `MapGet` |
| LuaTypes.FreedByCollect | src/lua/def.c:749-754 | a pool whose owner is collected has then been freed exactly once |
| LuaBinding.Binding.CollectGarbage | src/lua/msg.c:206-210 | clearing weak references and then finalising the dead in any order is one `Collect` step |
| LuaBinding.Binding.Call | src/lua/msg.c:81-91 | every call a program can make in a reachable state finds what the methods ask for and leaves the state that its step in a run gives, so a reachable one |
| TrieSpec.WalkExact | src/conformance/failure_list_trie_node.cc:75-103 | the search answers iff some stored pattern unifies section by section, and the answer is such a pattern |
| TrieSpec.WalkComplete | src/conformance/failure_list_trie_node.cc:84-102 | backing out of literal and wildcard branches misses no stored pattern |
| TrieSpec.WalkSound | src/conformance/failure_list_trie_node.cc:84-102 | what the search builds is a stored pattern that unifies |
| TrieSpec.WalkInOrder | src/conformance/failure_list_trie_node.cc:84-102 | a later child is asked only when the earlier ones have no answer |
| TrieSpec.SectionsInjective | src/conformance/failure_list_trie_node.cc:32-32 | a dotted name and its sections determine each other |
| TrieSpec.InsertStores | src/conformance/failure_list_trie_node.cc:45-73 | insertion adds exactly one pattern to the stored set |
| TrieSpec.InsertWellFormed | src/conformance/failure_list_trie_node.cc:45-73 | siblings keep distinct texts and every node keeps a test name at or below it |
| TrieSpec.BearsStores | src/conformance/failure_list_trie_node.cc:45-73 | each node lies on the path of a stored pattern |
| TrieSpec.InsertExact | src/conformance/failure_list_trie_node.cc:24-43 | AlreadyExists iff the name unifies with a stored pattern, else InvalidArgument iff a section longer than one character has `*`, else the set grows by exactly that name |
| TrieSpec.InsertKeeps | src/conformance/failure_list_trie_node.cc:24-43 | stored patterns stay pairwise non-unifying and the trie well formed |
| TrieSpec.RunsKeep | src/conformance/failure_list_trie_node.h:48-56 | the same after any sequence of insertions |
| TrieSpec.StoredWasInserted | src/conformance/failure_list_trie_node.h:48-56 | a pattern is stored iff some call inserted it and was accepted |
| TrieSpec.AtMostOneMatch | src/conformance/failure_list_trie_node.cc:84-102 | a name without wildcards matches at most one stored pattern |
| TrieSpec.OrderIrrelevantExactly | src/conformance/failure_list_trie_node.cc:75-103 | all insertion orders that store the same patterns answer a query alike exactly when at most one stored pattern unifies with it |
| TrieSpec.AnswerOfSomeOrder | src/conformance/failure_list_trie_node.cc:84-102 | each stored pattern that matches is the answer of some order that stores the same patterns |
| TrieSpec.OrderDoesNotMatter | src/conformance/failure_list_trie_node.cc:75-103 | in particular every wildcard-free query is answered identically |
| FailureListTrie.FailureListTrieNode.WalkDownMatch | src/conformance/failure_list_trie_node.cc:75-103 | the search over linked nodes gives the dotted join of what `Walk` finds |
| FailureListTrie.FailureListTrieNode.InsertImpl | src/conformance/failure_list_trie_node.cc:45-73 | changes the nodes in place to `InsertInto` |
| FailureListTrie.FailureListTrieNode.Insert | src/conformance/failure_list_trie_node.cc:24-43 | returns `InsertStatus` and changes the nodes to `Inserted` |
| Wire.Vencode64 | src/conformance/binary_wireformat.cc:20-38 | writes exactly the encoding in place, never past index 9, and leaves the rest of the buffer alone; zero ignores the padding |
| Wire.VarintRoundTrip | src/conformance/binary_wireformat.cc:56-68 | every uint64, padded or not, decodes to itself, whatever follows; the length is minimal plus padding |
| Wire.VarintShortest | src/conformance/binary_wireformat.cc:56-60 | without padding the encoding is the shortest that decodes to the value |
| Wire.VarintPrefixFree | src/conformance/binary_wireformat.cc:56-68 | no encoding is a proper prefix of another |
| Wire.NegativeTakesTenBytes | src/conformance/binary_wireformat.h:189-192 | a sign-extended int64 takes ten bytes iff it is negative |
| Wire.VarintBytes | src/conformance/binary_wireformat.cc:20-38 | byte k is the k-th digit in base 128, with the high bit on all bytes but the last, padding included |
| Wire.FixedRoundTrip | src/conformance/binary_wireformat.cc:40-52 | fixed-width little-endian values decode to themselves |
| Wire.FixedBytes | src/conformance/binary_wireformat.cc:40-52 | byte k of a fixed-width value is the k-th digit in base 256 |
| Wire.FieldStep | src/conformance/binary_wireformat.h:214-264 | one built field in front of any input is parsed back as that field, groups to any depth, by a decoder that has the encoding guide's own numbers for wire types and sizes |
| Wire.WireRoundTrip | src/conformance/binary_wireformat.h:208-264 | parsing the builders' output gives back exactly the tree of fields |
| Wire.KnownFields | src/conformance/binary_wireformat.h:87-94 | a field of number 1 of each kind begins with the byte that the encoding guide gives for its wire type |
| Wire.ZeroIgnoresPadding | src/conformance/binary_wireformat.h:219-222 | a padded zero is built and parsed back as a plain one |
| Wire.BuildInjective | src/conformance/binary_wireformat.h:208-264 | different trees have different encodings |
| Wire.GroupClosedByOwnTag | src/conformance/binary_wireformat.h:261-264 | a group is closed by its own end tag and by no other |
| Wire.PackedImpl | src/conformance/binary_wireformat.h:169-176 | the element count followed by the concatenated elements |
| Wire.PackedIsLengthPrefixed | src/conformance/binary_wireformat.h:169-176 | equals the length-prefixed elements iff total bytes equal the element count |
| Wire.PackedVarints | src/conformance/binary_wireformat.h:169-176 | for varint elements iff every element is below 128 |
| LuaLiteral.PrintString | src/lua/upbc.cc:58-82 | prints one quoted chunk of what the columns allow and drops exactly that from the input |
| LuaLiteral.PrintTable | src/lua/upbc.cc:107-111 | prints the whole table of chunks and stops |
| LuaLiteral.BodyLexed | src/lua/upbc.cc:61-80 | the lexer reads an escaped chunk back, whatever follows its quote |
| LuaLiteral.EscapeExact | src/lua/upbc.cc:61-79 | quote and backslash get a backslash, other printing characters stand for themselves, all other bytes become two upper-case hexadecimal digits |
| LuaLiteral.TableLexed | src/lua/upbc.cc:105-112 | lexing the printed table gives the chunks |
| LuaLiteral.TableRoundTrip | src/lua/upbc.cc:105-112 | and their concatenation is the original, for every byte string |
| LuaLiteral.ChunkBounds | src/lua/upbc.cc:58-82 | each chunk takes 1 to 72 bytes and prints at most 146 characters between its quotes |
| LuaLiteral.ChunkFills | src/lua/upbc.cc:58-82 | a chunk ends with the byte that reaches column 72, or with the data |
| LuaLiteral.BoundIsTight | src/lua/upbc.cc:58-82 | 146 is reached |
| DescriptorGraph.CollectFileDescriptors | src/benchmarks/benchmark.cc:45-54 | emits exactly the files reachable from the root, each once, a dependency later than its user only on a cycle; on an acyclic graph all dependencies first; the root's dependencies are taken in turn |
| DescriptorGraph.Collector.Collect | src/benchmarks/benchmark.cc:45-54 | terminates on every graph; extends the output by files that are new, reachable and in dependency order, and leaves nothing newly seen unemitted |
| DescriptorGraph.GrownFromNothing | src/benchmarks/benchmark.cc:151-156 | from an empty set that is the whole reachable set in order |
| DescriptorGraph.InTurnFromNothing | src/benchmarks/benchmark.cc:50-52 | what is emitted before a dependency of the root is reached from it or from one imported earlier |
| DescriptorGraph.ThenDependency | src/benchmarks/benchmark.cc:50-52 | a recursive call extends what its caller has done so far |
| BalancedFuse.MergedCount | src/benchmarks/benchmark.cc:107-107 | fusing two separate groups leaves exactly one group fewer |
| BalancedFuse.Arenas.FuseLevel | src/benchmarks/benchmark.cc:104-108 | after a level every aligned block of twice the step is one group and no two blocks share one, each call having joined two groups |
| BalancedFuse.Arenas.FuseBalanced | src/benchmarks/benchmark.cc:102-109 | all arenas end in one group after exactly one call fewer than there are arenas |
| BalancedFuse.FuseStep | src/benchmarks/benchmark.cc:106-108 | one call joins two separate groups and keeps the labelling in step with the blocks |
| BalancedFuse.LastBlock | src/benchmarks/benchmark.cc:106-108 | what a level leaves over is one short block |
| FailureListMerge.ReadRemovals | src/conformance/update_failure_list.py:42-48 | raises iff a removed line is also added, else gives exactly the names of the removed lines |
| FailureListMerge.MergePass | src/conformance/update_failure_list.py:55-70 | writes `Merged`, and raises on an empty file |
| FailureListMerge.MergeConserves | src/conformance/update_failure_list.py:60-70 | the output is the existing lines in order less exactly the removed names, interleaved with each added line once |
| FailureListMerge.PlacedExactly | src/conformance/update_failure_list.py:60-70 | before each kept line stand the kept lines before it and exactly the added lines smaller than its name or than an earlier line's |
| FailureListMerge.OrderedExactly | src/conformance/update_failure_list.py:60-70 | a sorted list stays sorted iff the added lines are in order of their names and each comparison of a line with a name agrees with the names |
| FailureListMerge.SortedWhenPlain | src/conformance/update_failure_list.py:11-18 | it does when names have only characters above `#` and added lines begin with their name |
| FailureListMerge.SpaceIsNotEnough | src/conformance/update_failure_list.py:55-70 | adding `A#m` to the sorted list `A!`, `B` gives a list out of order, although every character of a name exceeds space |
| FailureListMerge.CommentsSurvive | src/conformance/update_failure_list.py:42-67 | a comment or blank line of the list survives iff no removal line is a comment or blank |
| FailureListMerge.BlankRemovalTakesComments | src/conformance/update_failure_list.py:48-67 | one blank removal line takes every comment out |
| FailureListMerge.WithNewlineKeepsNames | src/conformance/update_failure_list.py:57-59 | giving the last line its newline changes no name |
| FailureListMerge.WithNewlineExact | src/conformance/update_failure_list.py:57-59 | every line but the last is left as it is, and the last keeps its text, message included, up to the white space at its end, with one newline after it |
| FailureListMerge.MergeReadsBack | src/conformance/update_failure_list.py:55-79 | the written text splits into the merged lines iff each added line ends in its line break or is the last one with every line after it removed |
| FailureListMerge.UnendedLineIsLost | src/conformance/update_failure_list.py:64-65 | so an added line without its line break, with a line written after it, is lost in that line |
| FailureListText.LinesRoundTrip | src/conformance/update_failure_list.py:56-56 | written lines read back iff each is one line and only the last may lack its line break |
| FailureListText.StripExact | src/conformance/update_failure_list.py:61-61 | strip removes exactly the white space around a text |
| FailureListText.PartsExact | src/conformance/update_failure_list.py:79-83 | what stands before the first `#`, stripped, is the name, and what follows it, stripped in front, is the message |
| FailureListAlign.AlignPass | src/conformance/update_failure_list.py:78-88 | writes every line of the file aligned |
| FailureListAlign.AlignKeeps | src/conformance/update_failure_list.py:80-88 | aligning keeps name and message, puts `#` in its column, and is idempotent on every line |
| FailureListAlign.AlignExact | src/conformance/update_failure_list.py:80-86 | an aligned failure is its name, blanks up to column 114, and its message after ` # ` |
| FailureListAlign.AlignLeaves | src/conformance/update_failure_list.py:87-88 | a line without `#` or without a name is left as it is |
| FailureListAlign.KeepsLines | src/conformance/update_failure_list.py:78-88 | the lines stay apart iff no failure before the last line has a blank message |
| FailureListAlign.AlignTwice | src/conformance/update_failure_list.py:78-88 | aligning a file again changes nothing iff no failure has run into a line that begins with white space |
| FailureListAlign.NotSteady | src/conformance/update_failure_list.py:82-86 | a file of two lines that the second alignment changes |
| FailureListUpdate.Update | src/conformance/update_failure_list.py:52-88 | the second pass aligns the lines of the text that the first has written |
| FailureListUpdate.UpdateKeepsLines | src/conformance/update_failure_list.py:52-88 | the updated file has the merged lines, aligned one by one, iff they read back and no failure before the last line has a blank message |
| FailureListUpdate.UpdateKeepsFailures | src/conformance/update_failure_list.py:52-88 | and then each line keeps the name and the message of its merged line |
| FailureListUpdate.UpdateKeepsOwnLines | src/conformance/update_failure_list.py:52-88 | and has the failures of the merge of the file's own lines one by one, messages up to white space after them |
| DefaultsEscape.ReplacePlaceholder | src/editions/internal_defaults_escape.cc:111-122 | the in-place loop ends and gives the leftmost parts joined with the replacement |
| DefaultsEscape.SplitIsLeftmost | src/editions/internal_defaults_escape.cc:116-118 | the parts lie between the leftmost occurrences that do not overlap, and rejoin to the input |
| DefaultsEscape.SplitUnique | src/editions/internal_defaults_escape.cc:116-118 | and no other parts do |
| DefaultsEscape.RoundsEndExactly | src/editions/internal_defaults_escape.cc:116-119 | the loop ends exactly when the placeholder is not empty |
| DefaultsEscape.RoundsResult | src/editions/internal_defaults_escape.cc:116-119 | and the text it ends with is the parts joined with the replacement |
| DefaultsEscape.HexArray | src/editions/internal_defaults_escape.cc:77-86 | writes the text of the array, which a C initialiser parser reads back as the bytes |
| DefaultsEscape.DecimalArray | src/editions/internal_defaults_escape.cc:65-76 | the same in decimal |
| DefaultsEscape.HexParses | src/editions/internal_defaults_escape.cc:77-86 | the parser recovers every byte string across the line breaks |
| DefaultsEscape.HexTextExact | src/editions/internal_defaults_escape.cc:77-86 | each byte adds a comma and a blank, or a new line at every twelfth, and its two lower-case digits |
| DefaultsEscape.DecimalParses | src/editions/internal_defaults_escape.cc:65-76 | the parser recovers every byte string |
| DefaultsEscape.DecimalTextExact | src/editions/internal_defaults_escape.cc:65-76 | each byte but the first adds a comma, a blank and its decimal digits |
| DefaultsEscape.HexRow | src/editions/internal_defaults_escape.cc:81-82 | every twelfth byte begins a line laid out like the first |
| DefaultsEscape.OneRow | src/editions/internal_defaults_escape.cc:81-82 | and no line is broken elsewhere |
| ForkPipe.StepOwes | src/conformance/conformance_cpp.cc:225-260 | no step of the testee, its death included, changes the bytes it owes the tester |
| ForkPipe.DigestMore | src/conformance/conformance_cpp.cc:225-260 | the responses to a request stream do not depend on how it is cut into pieces |
| ForkPipe.ReadExact | src/conformance/fork_pipe_runner.cc:196-241 | a successful read gives exactly the next bytes owed, in order, under arbitrary short reads |
| ForkPipe.SentOwes | src/conformance/fork_pipe_runner.cc:76-80 | after both writes exactly the response to this request is owed |
| ForkPipe.RunSafe | src/conformance/fork_pipe_runner.cc:69-119 | an answer is the current testee's response to this very request and leaves both pipes empty; a failed header makes the next call start a new testee |
| ForkPipe.RunsSafe | src/conformance/fork_pipe_runner.cc:69-119 | over every run of calls, crashes and time-outs, each answer belongs to the testee and the turn that the earlier results determine |
| ForkPipe.RunExact | src/conformance/fork_pipe_runner.cc:76-118 | a call ends the program iff a write fails or a body is missing after its header; when only the header is missing it is a report: a time-out iff the testee exited with status zero, a runtime error with any other status, and no error on a signal |
| ForkPipe.DeathReported | src/conformance/fork_pipe_runner.cc:83-111 | a testee that dies before it has answered is reported by its exit status |
| ForkPipe.ReadSucceeds | src/conformance/fork_pipe_runner.cc:196-241 | bytes that are in the pipe are read, however the reads are cut short |
| ForkPipe.AnswerPossible | src/conformance/fork_pipe_runner.cc:69-119 | every request has an environment in which it is answered, so the two results above are not empty |
| ForkPipe.ForkPipeRunner.CheckedWrite | src/conformance/fork_pipe_runner.cc:189-194 | is `WriteAll` |
| ForkPipe.ForkPipeRunner.TryRead | src/conformance/fork_pipe_runner.cc:196-241 | fills the buffer with what `ReadAll` gives, or fails exactly when it does |
| ForkPipe.ForkPipeRunner.RunTest | src/conformance/fork_pipe_runner.cc:69-119 | is `Run`, with its result and its new state |
| IntCheck.RoundIsNearestEven | src/lua/upb.c:189-189 | the rounding used is to nearest, ties to even, among all doubles |
| IntCheck.MaxValueExact | src/lua/upb.c:180-189 | the computed bound is the type's limit plus one, although converting a 64-bit limit rounds up |
| IntCheck.Limits | src/lua/upb.c:203-206 | the limits of the four types, as powers of two |
| IntCheck.AcceptsExactly | src/lua/upb.c:165-195 | a Lua integer is accepted iff it is in range, a double iff it is a whole number in range, both zeros as 0, nothing else |
| IntCheck.CheckAfterPush | src/lua/upb.c:196-206 | checking a pushed integer gives it back iff a double can hold it |
| IntCheck.SmallSurvives | src/lua/upb.c:196-206 | so every integer in range of magnitude at most 2 to the 53 survives |
| IntCheck.RefusedExactly | src/lua/upb.c:196-206 | checking a pushed integer fails exactly within half a step of doubles of a 64-bit limit, and never for the 32-bit types |
| IntCheck.PushAfterCheck | src/lua/upb.c:165-206 | an accepted double is pushed back as the same double, save that negative zero comes back as zero |

## Left out

- Lua: the interpreter, metatables, argument counts and error texts; finalizers written in Lua and resurrection; the collector runs between API calls and between a write and its fuse, not inside the other calls.
- Lua: scalar field contents, presence of scalar fields and oneofs; only pointers, lengths and types of upb objects are kept.
- Lua: the tables that initialise a new message or array, which are repeated assignments, and the copies of string map keys that upb makes in the map's own arena.
- Lua: `lupb_Map_New` checks the key type last, so a bad key type leaves a map userdata without a map for the collector; the model takes valid key types.
- Lua: JSON, text and binary encoding, and the decoder itself, which is taken by its promise: fresh, well-typed objects in the message's arena. A failed decode is `Scratch`.
- Lua: definition wrappers other than messages and the pool behave as message definitions do and are represented by them.
- upb: arena internals and the failure of a fuse; `upb_Arena_Fuse` is a merge of groups.
- src/conformance/binary_wireformat.cc: ZigZag, Float and Double, and a negative `extra`, for which the second loop of `vencode64` has no bound; assertions are taken as compiled in.
- Parse: limits of real parsers on nesting depth and size. It accepts over-long tags and lengths too, so rebuilding what it has parsed gives the same bytes only for input with minimal ones; that direction is not stated.
- LuaLiteral: the lexer's `\z` and `\u{}` escapes, which the printer never makes.
- BalancedFuse: `1 << n` as a 32-bit int and the floating-point `log2`; the step is the exact power of two and the limit the exact rounded-up logarithm. The unbalanced schedule and the timing are easier.
- FailureListText: `\r` as a line break, which reading in text mode has already replaced; arguments and file handling.
- DefaultsEscape: base64 and octal, which are library calls, and reading and writing files.
- ForkPipe.RunTest: file descriptors, the five thousand bytes of diagnostics read after a time-out, and the status that `waitpid` reports, which is a parameter; a response that reports an error is its kind, not its serialized text. The source returns the empty string both for a testee killed by a signal and for an empty answer; the model tells them apart, so `RunsSafe` counts with more than a caller of `RunTest` sees. Requests and responses of four gibibytes or more do not fit the protocol's length and are outside `RunSafe`. Nothing is claimed about when an answer arrives, only that one can.
- IntCheck: the upper limit on exponents and thereby overflow to infinity, which no operation here reaches; single-precision values.
- The conformance suites, the hpb generator and headers, the Objective-C headers, the language harnesses and the build files.

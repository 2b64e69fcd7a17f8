# teeworlds.cn core, modelled in Dafny

This project models the core of the teeworlds.cn site and its helpers, and
proves properties of that model.

**The leaderboard index builder** (`rust/src/main.rs`) takes six ranked category lists
(points, weekly, monthly, yearly, team rank, rank) and merges them into one record per
player. It sorts the records by lowercased name and writes `points_ranks_by_name.bin`:

- a 16-byte header: version 1, total points, record count, and the cache offset;
- a table of `u32` record offsets, followed by four spare zero bytes;
- the records: a name-length byte, the name, and twelve LEB128 varints;
- a top-10-by-prefix cache. It is built in one pass over the sorted records and keyed on
  grapheme clusters of the lowercased name. Prefixes with fewer than 10000 offers are
  evicted whenever the first cluster changes, and once more at the end.

The file is modelled as a byte buffer with a cursor (`FileBuffer.Writer`). The pointer
table and the cache offset are patched after a seek back, as the builder does.

The smaller cores are:

- the map-name and mapper search predicates;
- the bot command router and its permission gate;
- subscription lists;
- the sliding-window rate limiter;
- superscript and subscript numerals;
- star ratings and the map-type and flag tables;
- one run of the skin tracker's task (`rust/ddtracker/src/main.rs`): grouping addresses by
  host, projecting skins, and trimming skin histories, all in one transaction.

Notes on the modelling:

- Rust strings are UTF-8 byte sequences.
- TypeScript strings are `seq<char>`.
- Some services come from libraries: grapheme segmentation (Unicode Standard Annex #29,
  section 3), Unicode lowercasing and JavaScript's `toLowerCase`. They are carried as
  function values. Segmentation is constrained by `Unicode.TextOps.Valid`: there is no
  cluster in "", and otherwise the first cluster is a non-empty prefix.
- Clock readings, fresh UUIDs and the fetched server list are parameters.

The index output is not fully deterministic. `players` is a `HashMap`, and two names
that differ only in case get equal sort keys. Their relative order in the file then
follows the map's iteration order. `SortStage.Rows` models that order as an unspecified
choice.

The rate limiter compares `now - cd` with the cooldown, but `cd` is stored as the time
the cooldown *ends*. Read alone, that check would refuse requests for twice the cooldown.
The record is stored with a time to live equal to the cooldown, though, so it vanishes
exactly when the cooldown ends. `RateLimit.CooldownLasts` proves that the effective
cooldown is exactly `cooldown` seconds.

## Model

| member | source | states |
|---|---|---|
| Common.AsU32 | rust/src/main.rs:295 | `data.len() as u32` is below 2^32 and equals the length whenever the length fits |
| Common.IndexOf | src/lib/server/bots/utils/command-router.ts:41 | JavaScript `indexOf`, also used by subs.ts: -1 exactly when the element is absent, otherwise an index holding it with no earlier occurrence |
| Players.PlayerInfo.With | rust/src/main.rs:100-119 | replacing one category of a player record changes that category and keeps the other five |
| Players.MergeEntry | rust/src/main.rs:161-165 | handling entry i of a category list (entry or insert, then set that category to {points, i + 1}) extends the merge invariant from the first i entries to the first i + 1 |
| Players.MergeCategory | rust/src/main.rs:158-172 | one category loop: every name in the list gets the category value of its last entry with its 1-based index, other categories are untouched, new names start from `PlayerInfo::new` |
| Players.MergeStep | rust/src/main.rs:158-255 | merging the next category block keeps everything the earlier blocks established |
| Players.MergeNext | rust/src/main.rs:174-255 | one category block, seen against the blocks before it: the merge invariant grows by one category and the key set by that list's names |
| Players.MergedAll | rust/src/main.rs:94-98 | after all six blocks, each category holds its list's entries, and a name absent from a list has {0, 0} there |
| Players.Merged | rust/src/main.rs:158-255 | the state after some category blocks: each merged category holds its list's entries, every other category of a name is {0, 0} |
| Players.CollectPlayers | rust/src/main.rs:158-255 | the merged map has exactly the names of all six lists; each category holds the name's last entry with its 1-based rank, and {0, 0} when the name is absent |
| SortStage.ByteLeTotal | rust/src/main.rs:289 | the byte-wise string order used by the sort is total |
| SortStage.ByteLeTransitive | rust/src/main.rs:289 | that order is transitive |
| SortStage.ByteLeAntisymmetric | rust/src/main.rs:289 | that order is antisymmetric, so equal sort positions mean equal keys |
| SortStage.Rows | rust/src/main.rs:283-286 | one row per player, each player exactly once, key = lowercased name, original name and info kept, in an unspecified order |
| SortStage.InsertRow | rust/src/main.rs:289 | stable insertion into a sorted list keeps it sorted and adds exactly the row |
| SortStage.SortRows | rust/src/main.rs:289 | the sort returns a permutation of its input in non-decreasing key order |
| SortStage.SortKeepsPlayers | rust/src/main.rs:289 | sorting keeps each player exactly once, with its key and merged record |
| SortStage.SortedKeysMonotone | rust/src/main.rs:289 | in sorted rows, a later key that is not greater than an earlier one equals it |
| Varint.U32Le | rust/src/main.rs:299-301 | `to_le_bytes` of a `u32` is four bytes |
| Varint.ReadU32Le | rust/src/main.rs:491 | a little-endian word read anywhere is below 2^32 |
| Varint.U32LeRoundTrip | rust/src/main.rs:299-301 | a written `u32` reads back as itself |
| Varint.I32Bits | rust/src/main.rs:300 | an `i32`'s bit pattern is below 2^32, below 2^31 exactly for non-negative values, and equal to v or v + 2^32 |
| Varint.SignedOf | rust/src/main.rs:300 | the signed view of a 32-bit pattern is an `i32` |
| Varint.I32Le | rust/src/main.rs:300 | `total_points.to_le_bytes()` is four bytes that read back, little-endian, as the same signed value |
| Varint.I32LeRoundTrip | rust/src/main.rs:300 | the total-points word reads back as the same signed value |
| Varint.Leb128 | rust/src/main.rs:341-352 | `write_u32_varint` writes at least one byte |
| Varint.Leb128Shape | rust/src/main.rs:341-352 | every varint byte but the last has the continuation bit set, and the last has it clear |
| Varint.DecodeLeb128 | rust/src/main.rs:341-352 | a varint reader consumes between 1 and all the bytes it is given |
| Varint.Leb128RoundTrip | rust/src/main.rs:341-352 | a varint followed by anything decodes to its value and its exact length |
| Varint.Leb128Length | rust/src/main.rs:341-352 | a value below 128^k takes at most k bytes |
| Varint.U32VarintAtMostFive | rust/src/main.rs:341-352 | a `u32` varint takes one to five bytes |
| Unicode.FirstCluster | rust/src/main.rs:355-357 | `graphemes(true).next()` is none exactly for "" and otherwise a non-empty prefix |
| Unicode.Clusters | rust/src/main.rs:371 | the segmentation has no empty cluster and is empty exactly for "" |
| Unicode.ClustersConcat | rust/src/main.rs:371 | the clusters, flattened, give back the input |
| PrefixCache.InsertDesc | rust/src/main.rs:362-365 | a push followed by the stable sort adds exactly one member |
| PrefixCache.InsertDescPermutes | rust/src/main.rs:362-365 | the insertion adds the member and loses nothing |
| PrefixCache.InsertDescSorted | rust/src/main.rs:365 | inserting into a list sorted by points descending keeps it sorted |
| PrefixCache.SortDesc | rust/src/main.rs:365 | `sort_by(b.1.cmp(&a.1))` keeps the length |
| PrefixCache.SortDescSorts | rust/src/main.rs:365 | that sort returns a permutation of its input, by points descending |
| PrefixCache.Offer | rust/src/main.rs:361-369 | one cache update adds one to the count and leaves a sorted list of 1 to 10 members drawn from the old list and the new member |
| PrefixCache.Cap | rust/src/main.rs:367-369 | popping an overfull list leaves a sorted prefix of at most ten members |
| PrefixCache.OfferSorted | rust/src/main.rs:361-369 | on a sorted list, an update is one stable insertion followed by the cap |
| PrefixCache.OfferAllKeepsBest | rust/src/main.rs:310-322 | after any sequence of offers, a cache has counted all of them and keeps exactly the ten best by points, ties in arrival order |
| PrefixCache.OfferAll | rust/src/main.rs:361-369 | the cache built by offering members one after another to a fresh cache; OfferAllKeepsBest states what it holds |
| PrefixCache.BestOfInsert | rust/src/main.rs:362-369 | keeping ten and then inserting equals inserting and then keeping ten |
| PrefixCache.Find | rust/src/main.rs:324 | a lookup in the insertion-ordered map finds an entry with that prefix, or none exists |
| PrefixCache.Lookup | rust/src/main.rs:358-360 | the cache stored for a prefix, if any; LookupUnique and RecordAtLookup state its properties |
| PrefixCache.LookupUnique | rust/src/main.rs:324 | with distinct keys a lookup finds the one entry for its prefix |
| PrefixCache.RecordAt | rust/src/main.rs:358-360 | `entry(p).or_insert_with(new)` keeps the key order and appends p only when it is new |
| PrefixCache.RecordAtLookup | rust/src/main.rs:358-369 | the cache for p receives the offer (a fresh cache when p was absent) and no other prefix changes |
| PrefixCache.RecordAllOthers | rust/src/main.rs:355-443 | a prefix that a record does not update keeps its cache, or stays absent |
| PrefixCache.RecordAll | rust/src/main.rs:355-443 | the updates of one record, one `entry` update per prefix in order |
| PrefixCache.KeepPopular | rust/src/main.rs:451-458 | what survives an eviction has at least 10000 offers |
| PrefixCache.KeepPopularMembers | rust/src/main.rs:454-455 | an entry survives an eviction exactly when its count is at least 10000 |
| PrefixCache.KeepPopularAppend | rust/src/main.rs:451-458 | eviction keeps the entries' order |
| PrefixCache.EvictUnpopular | rust/src/main.rs:449-458 | the backward `shift_remove_index` loop leaves exactly the entries with count ≥ 10000, in their order |
| PrefixCache.KeepPopularLookup | rust/src/main.rs:451-458 | after an eviction, a prefix is present exactly when it was present with enough offers, and it keeps its cache |
| PrefixCache.CommonPrefix | rust/src/main.rs:389-391 | the common prefix is found exactly when the key starts with "(1)" or "[d]"; it is a 3-byte prefix of the key, "(1)" first |
| PrefixCache.Extend | rust/src/main.rs:371-374 | a prefix extends by one cluster exactly when it is shorter than the key, giving a longer prefix of the key |
| PrefixCache.UpdatedPrefixes | rust/src/main.rs:355-443 | a record updates no prefix exactly when its key is empty, otherwise g1 first, at most five prefixes, all non-empty prefixes of the key, including the common prefix when there is one |
| PrefixCache.ClusterPrefixes | rust/src/main.rs:355-387 | the first block updates g1, and g1 + g2 when there is a second cluster |
| PrefixCache.CommonPrefixes | rust/src/main.rs:389-443 | the second block updates at most three prefixes of the key, the common prefix first |
| PrefixCache.Step | rust/src/main.rs:355-459 | an empty key changes nothing; otherwise `last_prefix` stays or becomes g1 |
| PrefixCache.FinalSlots | rust/src/main.rs:462-472 | every entry left for the cache section has at least 10000 offers |
| PrefixCache.RecordClusters | rust/src/main.rs:355-387 | the first-cluster block performs the updates of `ClusterPrefixes` in order |
| PrefixCache.RecordCommon | rust/src/main.rs:389-443 | the common-prefix block performs the updates of `CommonPrefixes` in order |
| PrefixCache.CacheRecord | rust/src/main.rs:355-459 | the nested updates and the eviction check of one record compute `Step` |
| PrefixCache.OfferOk | rust/src/main.rs:361-369 | an update leaves a cache non-empty, sorted and at most ten long |
| PrefixCache.RecordAtWellFormed | rust/src/main.rs:358-369 | an update keeps prefixes distinct and every cache well kept |
| PrefixCache.StepWellFormed | rust/src/main.rs:355-459 | each record's step keeps the map well formed |
| PrefixCache.CachePassWellFormed | rust/src/main.rs:330-472 | over the whole pass and the final eviction, prefixes stay distinct and every top-10 list is sorted, non-empty and at most ten long |
| PrefixCache.CachePass | rust/src/main.rs:330-459 | the cache state after each record's step, in record order; CachePassWellFormed states its invariant |
| PrefixCache.RecordAllCount | rust/src/main.rs:355-443 | one record raises any prefix's count by at most the number of its updates |
| PrefixCache.RecordAtCount | rust/src/main.rs:361 | one update raises any count by at most one |
| PrefixCache.NewGroupNotCounted | rust/src/main.rs:447-459 | the record that opens a new g1 group, absent from the map before, leaves no entry for g1, because the eviction after its updates drops the fresh cache; `last_prefix` becomes g1 |
| FileBuffer.Overwrite | rust/src/main.rs:293 | a write at a position puts the data there, keeps every other byte, zero-fills any gap, and makes the file as long as the larger end |
| FileBuffer.OverwriteAtEnd | rust/src/main.rs:305-307 | a write past the end appends after zero bytes |
| FileBuffer.OverwriteInside | rust/src/main.rs:490-494 | a write inside the file replaces exactly the bytes it covers |
| FileBuffer.WriteAhead | rust/src/main.rs:305-340 | after a seek past the end, writes extend the zero-filled file |
| FileBuffer.WriteOverZeros | rust/src/main.rs:492-494 | a write over the start of a zero run replaces that many zeros |
| FileBuffer.Writer.constructor | rust/src/main.rs:292-293 | a new file is empty with the cursor at 0 |
| FileBuffer.Writer.Write | rust/src/main.rs:299 | `write_all` overwrites at the cursor and advances it by the data length |
| FileBuffer.Writer.Seek | rust/src/main.rs:305-307 | `seek` moves the cursor and keeps the contents |
| IndexFormat.RecordFields | rust/src/main.rs:341-352 | a record has twelve `u32` fields |
| IndexFormat.VarintsSnoc | rust/src/main.rs:341-352 | the varints of the fields are written one after another |
| IndexFormat.RecordBytes | rust/src/main.rs:336-352 | a record is at least 13 bytes plus its name |
| IndexFormat.RecordsFitEach | rust/src/main.rs:332-333 | the records fit exactly when every record offset is below 2^32 (`u32::try_from(position).unwrap()` succeeds) |
| IndexFormat.OffsetNext | rust/src/main.rs:332-352 | each record starts where the previous one ends |
| IndexFormat.OffsetsIncrease | rust/src/main.rs:332-352 | the pointer table is strictly increasing, by at least 13 per record |
| IndexFormat.FitMeansFewRecords | rust/src/main.rs:295 | when the records fit there are fewer than 2^32 of them, so `data.len() as u32` does not truncate |
| IndexFormat.Offsets | rust/src/main.rs:332-333 | the pointer table has one entry per record, entry i being record i's offset |
| IndexFormat.PointerBytes | rust/src/main.rs:492-494 | the pointer table is four bytes per pointer |
| IndexFormat.PointerAt | rust/src/main.rs:492-494 | pointer i occupies bytes 4i to 4i + 4 of the table |
| IndexFormat.MemberBytes | rust/src/main.rs:481-486 | a cached member is at least 2 bytes plus its name |
| IndexFormat.CacheFitsWhenPrefixesFit | rust/src/main.rs:475-486 | only the entry count and the prefix lengths can overflow their fields; member lists and names always fit |
| IndexFormat.Header | rust/src/main.rs:297-302 | the header is 16 bytes |
| IndexFormat.Prelude | rust/src/main.rs:292-307 | header, pointer table and spare bytes take 20 + 4N bytes |
| IndexFormat.CacheSection | rust/src/main.rs:475-487 | the entry count as a u32, then each entry's prefix, list length and members in map order |
| IndexFormat.FileBytes | rust/src/main.rs:297-494 | the whole file: header, pointer table, four spare bytes, records, cache section |
| IndexFormat.IndexFile | rust/src/main.rs:292-494 | the published file, or none where the builder panics or returns an error; IndexFileLayout and the reader lemmas state its shape |
| IndexFormat.IndexFileLayout | rust/src/main.rs:292-494 | a file is published exactly when every offset, count and length fits its field, and it is the layout header, table, spare zeros, records, cache section |
| IndexFormat.VarintsRoundTrip | rust/src/main.rs:341-352 | consecutive varints read back as the values written |
| IndexFormat.RecordRoundTrip | rust/src/main.rs:336-352 | a record reads back as its original-case name and its twelve fields |
| IndexFormat.HeaderReads | rust/src/main.rs:297-302 | the header words read back as version, total points, record count and cache offset |
| IndexFormat.FileReads | rust/src/main.rs:297-307 | in the published file, bytes 0/4/8/12 read version 1, total points, N and the offset right after the last record; the four bytes before the records are zero |
| IndexFormat.RecordReads | rust/src/main.rs:332-352 | at record i's offset the file decodes to row i's name and fields |
| IndexFormat.PointerReads | rust/src/main.rs:492-494 | pointer i of the file, at byte 16 + 4i, holds record i's offset |
| IndexWriter.Append | rust/src/main.rs:339-340 | a write at the end of the file appends |
| IndexWriter.WriteVarints | rust/src/main.rs:341-352 | consecutive `write_u32_varint` calls append the varints |
| IndexWriter.WriteRecord | rust/src/main.rs:336-352 | writing one record appends its bytes |
| IndexWriter.RecordOverflow | rust/src/main.rs:333-337 | a record starting at or beyond 2^32, or a name longer than 255 bytes, means the records do not fit |
| IndexWriter.WriteRow | rust/src/main.rs:330-459 | one loop iteration: the pointer is the cursor before the record, the record is appended, and the cache takes one step; it fails only where the source panics |
| IndexWriter.WriteRecords | rust/src/main.rs:330-460 | the record loop succeeds exactly when the records fit, leaving the records, the pointer table contents and the cache pass |
| IndexWriter.WriteMember | rust/src/main.rs:481-486 | a cached member is appended |
| IndexWriter.WriteMembers | rust/src/main.rs:481-486 | a member list is written unless some name is longer than 255 bytes |
| IndexWriter.WriteSlot | rust/src/main.rs:476-487 | one cache entry is written exactly when its length fields fit |
| IndexWriter.WriteCache | rust/src/main.rs:474-487 | the cache section is written exactly when all its counts and lengths fit |
| IndexWriter.WritePointers | rust/src/main.rs:492-494 | the pointer writes fill the zeros the first seek skipped, leaving four spare zero bytes |
| IndexWriter.PatchPointers | rust/src/main.rs:490-494 | after `seek(12)` the cache offset and the pointers fill the header's last word and the table |
| IndexWriter.FinishIndex | rust/src/main.rs:474-494 | after the records: the cache section, then the patches, or no file when a field overflows |
| IndexWriter.CompleteIndex | rust/src/main.rs:462-494 | final eviction, cache section and patches leave exactly `IndexFile` |
| IndexWriter.RecordsOverflow | rust/src/main.rs:333-337 | when the records do not fit, the builder publishes nothing |
| IndexWriter.FinishedFile | rust/src/main.rs:474-494 | what the writer leaves after the records is `IndexFile` |
| IndexWriter.WriteIndex | rust/src/main.rs:292-494 | the whole writer publishes exactly the file `IndexFile` describes, and nothing where the builder panics or returns early |
| IndexWriter.Build | rust/src/main.rs:158-494 | the merged players have exactly the names of the six lists, each category holding the name's last entry with its 1-based rank or {0, 0}; the rows list every player exactly once with its lowercased key and merged record, sorted by key; the file is `IndexFile` of those rows |
| JsText.TrimStart | src/lib/server/bots/utils/command-router.ts:31 | `trim` drops exactly the leading white space |
| JsText.TrimEnd | src/lib/server/bots/utils/command-router.ts:31 | `trim` drops exactly the trailing white space |
| JsText.Trim | src/lib/server/bots/utils/command-router.ts:31 | a trimmed string is no longer than its input and neither starts nor ends with white space |
| JsText.TrimSplits | src/lib/server/bots/utils/command-router.ts:31 | the input is white space, the trimmed string, and white space |
| JsText.TrimIdempotent | src/lib/server/bots/utils/command-router.ts:44 | trimming twice is trimming once |
| JsText.TrimmedAlready | src/lib/server/bots/utils/command-router.ts:31 | a string with non-space ends is its own trim |
| JsText.Split | src/lib/ddnet/searches.ts:63-65 | `split` always yields at least one part |
| JsText.SplitJoin | src/lib/ddnet/searches.ts:63-65 | joining the parts with the separator gives the input back |
| JsText.SplitSeparatorFree | src/lib/ddnet/searches.ts:63-65 | no part contains the separator |
| JsText.SplitAfterFree | src/lib/ddnet/searches.ts:63-65 | a head without the separator is glued onto the first part of what follows it |
| JsText.JoinSplit | src/lib/ddnet/searches.ts:63-65 | splitting a join of separator-free parts gives the parts back, the converse of SplitJoin |
| Searches.CheckMapName | src/lib/ddnet/searches.ts:1-52 | the two character loops compute the initials and the name without separators; the result is exactly: empty search, or initials start with the stripped search, or stripped name contains stripped search, or name contains search (all lowercased) |
| Searches.Taken | src/lib/ddnet/searches.ts:12-26 | a character is an initial when it is an upper-case letter not after another upper-case letter (or after a separator), a lower-case letter after a separator or at the start, or a digit or dot |
| Searches.Initials | src/lib/ddnet/searches.ts:10-26 | the characters of the name that are taken as initials, in order; InitialsAreWordChars and InitialsKeepDigits state its properties |
| Searches.StripSeparators | src/lib/ddnet/searches.ts:29-31 | the text without '-', '_' and ' '; StripKeepsOthers and StripAppend state its properties |
| Searches.MapNameMatches | src/lib/ddnet/searches.ts:47-51 | the result of `checkMapName`: empty search, initials starting with the stripped search, stripped name containing it, or lowercased name containing the search |
| Searches.StripLoop | src/lib/ddnet/searches.ts:34-41 | the search loop drops exactly '-', '_' and ' ' |
| Searches.StripAppend | src/lib/ddnet/searches.ts:29-31 | dropping separators distributes over concatenation |
| Searches.StripKeepsOthers | src/lib/ddnet/searches.ts:29-31 | the stripped text has no separator, and it is shorter than the input by exactly the number of separators |
| Searches.StripKeepsContainment | src/lib/ddnet/searches.ts:48-50 | a search found in a name is still found once both lose their separators |
| Searches.SeparatorSearchMatchesAll | src/lib/ddnet/searches.ts:34-48 | a search made only of separators matches every map name |
| Searches.NoOthers | src/lib/ddnet/searches.ts:37-40 | a string of separators strips to "" |
| Searches.InitialsAreWordChars | src/lib/ddnet/searches.ts:16-26 | initials are letters, digits or dots |
| Searches.InitialsKeepDigits | src/lib/ddnet/searches.ts:24-25 | every digit and dot of the name is an initial: the initials hold as many of them as the name |
| Searches.Mappers | src/lib/ddnet/searches.ts:63-66 | one mapper per piece of the split on ',' then '&' |
| Searches.CheckMapper | src/lib/ddnet/searches.ts:54-73 | the three cases of `checkMapper`: an empty search matches, a quoted one is compared against the listed mappers, any other is a substring test on the mapper text or '不详'; its partners are CheckMapperExact and ListedMapperFound |
| Searches.RawMappersOfJoin | src/lib/ddnet/searches.ts:63-65 | splitting the ','-join of such names on ',' and then '&' gives one piece per name, the name itself |
| Searches.MappersOfJoin | src/lib/ddnet/searches.ts:63-66 | for non-empty, trimmed names free of ',' and '&', the mappers of their ','-join are exactly those names, in order |
| Searches.CheckMapperExact | src/lib/ddnet/searches.ts:61-72 | a quoted search matches a ','-joined list of such names exactly when it equals one of them ignoring case, and fails otherwise |
| Searches.ListedMapperFound | src/lib/ddnet/searches.ts:61-72 | every listed name, in quotes, finds the mapper field that lists it |
| Searches.MapperText | src/lib/ddnet/searches.ts:59 | a missing or empty mapper reads as '不详' |
| Searches.Unquoted | src/lib/ddnet/searches.ts:68 | `slice(1, -1)`: the search without its first and last character |
| Searches.MappersClean | src/lib/ddnet/searches.ts:63-66 | each listed mapper has no ',' or '&' and no surrounding white space |
| Searches.SubSplitKeeps | src/lib/ddnet/searches.ts:65 | a piece of a split keeps only characters of the string that was split |
| Searches.FlattenAll | src/lib/ddnet/searches.ts:65 | `flatMap` keeps a property every piece has |
| Commands.StripSlash | src/lib/server/bots/utils/command-router.ts:31-36 | the trimmed message loses one leading "/ " or else one "/", or nothing when it starts with neither |
| Commands.CommandSplit | src/lib/server/bots/utils/command-router.ts:38-45 | the command has no space; with a space the message is command, space and rest, and the arguments are the trimmed rest; without one the arguments are "" |
| Commands.SpaceAfterWord | src/lib/server/bots/utils/command-router.ts:41 | the first space after a space-free word is the one right after it |
| Commands.SlashBeforeWord | src/lib/server/bots/utils/command-router.ts:34-35 | "/" before a word is stripped |
| Commands.SplitAfterWord | src/lib/server/bots/utils/command-router.ts:41-45 | a word, a space and the rest split into the word and the trimmed rest |
| Commands.MessageRoundTrip | src/lib/server/bots/utils/command-router.ts:30-45 | parsing "/" + name + " " + args gives name and args back |
| Commands.BareCommandRoundTrip | src/lib/server/bots/utils/command-router.ts:30-45 | parsing "/" + name gives the name and "" |
| Commands.EmptyListOnlySuper | src/lib/server/bots/utils/command-router.ts:55-58 | an empty permission list admits exactly the SUPER users |
| Commands.ParseMessage | src/lib/server/bots/utils/command-router.ts:30-64 | the command and arguments are split from the stripped message, and the command is not a fallback exactly when it is registered and the user passes its gate |
| Commands.CommandName | src/lib/server/bots/utils/command-router.ts:41-43 | the text before the first space, or all of it; CommandSplit states its properties |
| Commands.Arguments | src/lib/server/bots/utils/command-router.ts:41-45 | the trimmed text after the first space, or ""; CommandSplit states its properties |
| Commands.Permitted | src/lib/server/bots/utils/command-router.ts:55-58 | SUPER, no permission list, or a permission the list names |
| Commands.RunCommand | src/lib/server/bots/utils/command-router.ts:66-79 | a fallback command is ignored exactly when no fallback handler is set; another is ignored exactly when unregistered |
| Commands.CommandRouter.constructor | src/lib/server/bots/utils/command-router.ts:10-13 | a new router has no commands and no fallback handler |
| Commands.CommandRouter.Add | src/lib/server/bots/utils/command-router.ts:20-23 | registering sets or replaces the command's handler and permissions and changes nothing else |
| Commands.CommandRouter.Fallback | src/lib/server/bots/utils/command-router.ts:25-28 | the fallback handler is set or cleared and the commands are kept |
| Commands.CommandRouter.Parse | src/lib/server/bots/utils/command-router.ts:48-63 | a parse that does not fall back names a registered command |
| Commands.CommandRouter.Run | src/lib/server/bots/utils/command-router.ts:66-79 | a fallback runs the fallback handler, or is ignored without one; another command runs its registered handler, or is ignored when unregistered |
| Commands.ParsedRunsHandler | src/lib/server/bots/utils/command-router.ts:63-78 | a message that passes the gate runs its command's handler |
| Commands.UnknownFallsBack | src/lib/server/bots/utils/command-router.ts:48-71 | an unregistered command falls back, to the fallback handler or to `{ignored: true}` |
| Subs.Added | src/lib/server/db/subs.ts:26-30 | the target ends up listed: unchanged when present, appended otherwise |
| Subs.Removed | src/lib/server/db/subs.ts:38-42 | unchanged when the target is absent; otherwise the first occurrence (at `indexOf`) is spliced out and the other entries keep their order, so one occurrence leaves the multiset |
| Subs.AddedNoDuplicates | src/lib/server/db/subs.ts:26-29 | adding never lists a target twice |
| Subs.RemovedGone | src/lib/server/db/subs.ts:38-42 | on a list without duplicates the target is gone after removal, and there are still no duplicates |
| Subs.AddThenRemove | src/lib/server/db/subs.ts:19-44 | adding a new target and then removing it restores the list |
| Subs.SubscriptionStore.constructor | src/lib/server/db/subs.ts:2 | the store starts with the given entries |
| Subs.SubscriptionStore.Get | src/lib/server/db/subs.ts:11-17 | the stored list under "sub:" + key, or [] when there is none |
| Subs.SubscriptionStore.Add | src/lib/server/db/subs.ts:19-31 | a missing list becomes [target]; otherwise the list becomes `Added`; no other key changes |
| Subs.SubscriptionStore.Remove | src/lib/server/db/subs.ts:33-44 | nothing changes when the list or the target is missing; otherwise the list becomes `Removed` |
| RateLimit.Within | src/lib/server/bots/utils/rate-limiter.ts:49 | the filter keeps exactly the timestamps less than the interval old |
| RateLimit.Step | src/lib/server/bots/utils/rate-limiter.ts:37-62 | what one `isLimited` decides and writes on the visible record; its properties are StepShape, StepKeepsWindow and CooldownLasts |
| RateLimit.StepShape | src/lib/server/bots/utils/rate-limiter.ts:37-62 | triggered implies limited; a limited, untriggered call writes nothing; only a trigger writes a cooldown; an accepted call stores a list holding now, with the interval as time to live |
| RateLimit.WithinOrdered | src/lib/server/bots/utils/rate-limiter.ts:49 | filtering keeps timestamps in time order |
| RateLimit.StepKeepsWindow | src/lib/server/bots/utils/rate-limiter.ts:47-62 | with requests in time order, an accepted request leaves a sorted list of at most `threshold` timestamps (one when the threshold is 0) |
| RateLimit.CooldownLasts | src/lib/server/bots/utils/rate-limiter.ts:37-55 | after a trigger, requests are refused without a write for exactly the cooldown, and the first request after it starts afresh |
| RateLimit.VolatileStore.constructor | src/lib/server/bots/utils/rate-limiter.ts:1 | the store starts empty |
| RateLimit.VolatileStore.Get | src/lib/server/bots/utils/rate-limiter.ts:35 | a value is returned exactly when it is stored and not expired |
| RateLimit.VolatileStore.Set | src/lib/server/bots/utils/rate-limiter.ts:43 | `set` stores the value with its expiry and changes no other key |
| RateLimit.RateLimiter.constructor | src/lib/server/bots/utils/rate-limiter.ts:25-30 | the options are kept |
| RateLimit.RateLimiter.IsLimited | src/lib/server/bots/utils/rate-limiter.ts:32-63 | the answer and the store's new contents are those of `Step` on the visible record under "rl:prefix:group:user" |
| Digits.DecimalDigits | src/lib/helpers.ts:7-11 | digits are below 10, and there are none exactly when n ≤ 0 |
| Digits.DigitsRoundTrip | src/lib/helpers.ts:7-11 | the digits read back as n, with no leading zero |
| Digits.ValueRoundTrip | src/lib/helpers.ts:7-11 | a digit list without a leading zero is the digit list of its value |
| Digits.DigitCount | src/lib/helpers.ts:7-11 | a positive n with d digits satisfies 10^(d-1) ≤ n < 10^d |
| Digits.Glyphs | src/lib/helpers.ts:1-20 | one glyph per digit, glyph k being the table entry for digit k |
| Digits.ToNumeral | src/lib/helpers.ts:5-12 | the prepend loop produces the glyphs of floor(n)'s digits, most significant first |
| Digits.NumberToSuper | src/lib/helpers.ts:4-13 | `numberToSuper` is the superscript numeral of floor(num) |
| Digits.NumberToSub | src/lib/helpers.ts:15-24 | `numberToSub` is the subscript numeral of floor(num) |
| Digits.NumeralLength | src/lib/helpers.ts:4-22 | n ≤ 0 gives ""; otherwise one glyph per decimal digit |
| Digits.SameLength | src/lib/helpers.ts:4-24 | both functions give outputs of the same length |
| Digits.NumeralDecodes | src/lib/helpers.ts:1-2 | with ten distinct glyphs, the numeral determines the number |
| Digits.TablesHaveTenGlyphs | src/lib/helpers.ts:1-2 | both tables hold ten distinct glyphs |
| DdnetHelpers.Round | src/lib/ddnet/helpers.ts:2 | `Math.round` lies within half of its input |
| DdnetHelpers.Repeat | src/lib/ddnet/helpers.ts:3 | `repeat(n)` is n copies |
| DdnetHelpers.NumberToStars | src/lib/ddnet/helpers.ts:1-4 | defined exactly when round(num) ≥ 0 (`repeat` throws otherwise); then round(num) '★' followed by '☆' up to five |
| DdnetHelpers.StarsDecode | src/lib/ddnet/helpers.ts:1-4 | the number of '★' is round(num) |
| DdnetHelpers.StarsFiveWide | src/lib/ddnet/helpers.ts:3 | a rating between 0 and 5 renders five glyphs |
| DdnetHelpers.MapTypeConstructor | src/lib/ddnet/helpers.ts:27-29 | as written, the map type "constructor" yields an inherited object member instead of text |
| DdnetHelpers.FlagAssetToString | src/lib/ddnet/helpers.ts:55-57 | as written, the region "toString" yields an inherited function instead of a path |
| DdnetHelpers.MapTypeAsWritten | src/lib/ddnet/helpers.ts:27-29 | the lookup of the lowercased type on a plain object, inherited members included, falling back to the input when the value found is falsy |
| DdnetHelpers.FlagAssetAsWritten | src/lib/ddnet/helpers.ts:55-57 | the lookup of the code on a plain object, inherited members included, falling back to the default flag when the value found is falsy |
| DdnetHelpers.MapType | src/lib/ddnet/helpers.ts:11-29 | a known lowercased type gives its display name, and any other type is returned unchanged |
| DdnetHelpers.FlagAsset | src/lib/ddnet/helpers.ts:31-57 | the default flag is returned exactly for unknown codes, and the result is always a path under /assets/flags/ |
| DdnetHelpers.MapTypeAgrees | src/lib/ddnet/helpers.ts:27-29 | for keys that are not inherited members, the corrected lookup is the written one |
| DdnetHelpers.FlagAssetAgrees | src/lib/ddnet/helpers.ts:55-57 | the same for flags |
| DdnetHelpers.MapTypeDistinct | src/lib/ddnet/helpers.ts:11-25 | distinct known types have distinct display names |
| Tracker.SkinOf | rust/ddtracker/src/main.rs:130-142 | the stored skin has only the keys n, b and f, each present exactly when name, color_body or color_feet is, with the same value |
| Tracker.SkinOfIgnoresOtherFields | rust/ddtracker/src/main.rs:130-142 | fields other than those three do not affect the stored skin |
| Tracker.TrimmedShape | rust/ddtracker/src/main.rs:150-153 | the new history is the newest min(len + 1, 10) entries of history + [e], ending with e |
| Tracker.SuffixOrdered | rust/ddtracker/src/main.rs:151-153 | dropping the oldest entries keeps a history in time order |
| Tracker.TrimmedOrdered | rust/ddtracker/src/main.rs:148-153 | appending an entry no older than the history, then trimming to ten, leaves the history in time order up to the new entry |
| Tracker.AppendHistory | rust/ddtracker/src/main.rs:148-153 | `push` then `drain` compute the trimmed history |
| Tracker.Observe | rust/ddtracker/src/main.rs:144-177 | an unseen client gets a row with a one-entry history; a known client is written exactly when its skin changed, and then keeps its id, holds the new skin and gets the history `Trimmed(history, {now, skin})`, the push and drain to the newest ten |
| Tracker.ObserveKeepsRow | rust/ddtracker/src/main.rs:144-177 | a row with 1 to 10 time-ordered entries ending in its current skin stays so as time moves forward |
| Tracker.RecordTwice | rust/ddtracker/src/main.rs:147 | seeing the same skin twice writes once |
| Tracker.Record | rust/ddtracker/src/main.rs:144-177 | the client table after observing one skin for one (name, region) |
| Tracker.ObserveAll | rust/ddtracker/src/main.rs:125-181 | the client table after observing a server's clients in order, skipping entries without a name or skin object |
| Tracker.ObserveAllKeys | rust/ddtracker/src/main.rs:125-181 | after observing a server's clients, every observed (name, region) has a row, and no other row changes |
| Tracker.ObserveAllKeepsRows | rust/ddtracker/src/main.rs:125-181 | observing a server's clients keeps every row well kept |
| Tracker.ObserveClients | rust/ddtracker/src/main.rs:125-181 | the client loop skips entries without a name or skin object and records the rest in order |
| Tracker.HostOrderListsHosts | rust/ddtracker/src/main.rs:106-117 | each host is listed once, and a host is listed exactly when some URL names it |
| Tracker.HostOrder | rust/ddtracker/src/main.rs:106-117 | the hosts of the URLs, each once, in order of first appearance, as the IndexMap keeps them |
| Tracker.ProtocolsOf | rust/ddtracker/src/main.rs:106-117 | the schemes of the URLs on one host, in input order |
| Tracker.GroupStep | rust/ddtracker/src/main.rs:109-115 | adding one URL's scheme under its host (a new host appended to the order) keeps the hosts and schemes equal to those of the URLs seen so far |
| Tracker.GroupSkip | rust/ddtracker/src/main.rs:108-109 | an address that is not a string leaves the grouping of the URLs seen so far unchanged |
| Tracker.GroupByHost | rust/ddtracker/src/main.rs:106-117 | succeeds exactly when no address fails to parse or lacks a host; then the hosts are in order of first appearance, each with its URLs' schemes in input order |
| Tracker.WriteServers | rust/ddtracker/src/main.rs:119-123 | the loop over the hosts computes `HostRows` |
| Tracker.WithProtocols | rust/ddtracker/src/main.rs:120-121 | the server info with "protocols" set to the host's schemes |
| Tracker.HostRows | rust/ddtracker/src/main.rs:119-123 | the server table after `INSERT OR REPLACE` of one row per host, in order |
| Tracker.HostRowsSpec | rust/ddtracker/src/main.rs:119-123 | every host gets a row with the info, its schemes and the current minute; other rows are kept |
| Tracker.ServersAfter | rust/ddtracker/src/main.rs:99-123 | the server table after a run: each used server's hosts written in list order |
| Tracker.ServersAfterKeys | rust/ddtracker/src/main.rs:99-123 | after a run, every host of a used server has a row, and no other row changes |
| Tracker.ServersAfterRows | rust/ddtracker/src/main.rs:99-123 | after a run, each such row holds the info of a used server listing that host, with that server's schemes for it, seen at the current minute |
| Tracker.ClientsAfter | rust/ddtracker/src/main.rs:99-181 | the client table after a run: each used server's clients observed in list order |
| Tracker.ClientsAfterKeys | rust/ddtracker/src/main.rs:99-181 | after a run, every observed client has a row, and no other client row changes |
| Tracker.ClientsAfterKeepsRows | rust/ddtracker/src/main.rs:99-181 | with the clock not going back, a run keeps every client row well kept (1 to 10 entries in time order, the last one current) |
| Tracker.TrackerDb.constructor | rust/ddtracker/src/main.rs:17-27 | an empty database |
| Tracker.TrackerDb.Task | rust/ddtracker/src/main.rs:42-188 | the run commits exactly when a server list arrived and no used server has an aborting address; a run that does not commit changes nothing; a commit leaves the server table `ServersAfter` and the client table `ClientsAfter` of the old tables and sets the last update; if the rows were well kept at an earlier time, they still are |

## Left out

- Download, ETag caching, msgpack decoding, temporary file and rename, and the command-line flags of the index builder (rust/src/main.rs:13-156, 497-500) are I/O. The decoded lists and total points are inputs of `IndexWriter.Build`. A decoding failure happens before any write, so its outcome is simply "no file".
- Buffering in `BufWriter`, and I/O errors from `write_all`, `seek` and `stream_position`, are not modelled: the file is an in-memory buffer that cannot fail.
- `Players.RankInfo`: the rank counter `i` is a `u32` in the source (rust/src/main.rs:161-165), and the model counts without a bound. A list of 2^32 entries would overflow it (a panic in a debug build, wrap-around in a release build); the model keeps counting instead.
- `Top10Cache.count` is a `u32` in the source; the model uses an unbounded count. Each record adds at most five offers, so the count stays far below 2^32 for any list short enough to fit the file.
- Lowercasing and grapheme segmentation are function values constrained only by `TextOps.Valid`. Their Unicode tables are not part of this model.
- `SortStage.Rows`: the iteration order of `HashMap` is not specified, so the model does not fix it; rows with equal keys may come in either order.
- The HTTP fetch, the cron schedule, the UUID generator and the rusqlite plumbing of the tracker are left out. The server list, the current minute and an id-producing function are parameters of `Tracker.TrackerDb.Task`.
- In the tracker, an error leaves the transaction uncommitted and also ends the program (`task(...).await?` in rust/ddtracker/src/main.rs:37). The model ends the run without a commit and does not model the loop that stops.
- `Tracker.TrackerDb.Task`: skins are compared as JSON values, not as serialized text. serde_json writes maps with sorted keys, so two skins have equal text exactly when their values are equal. Histories are stored as values, not JSON text. A stored history that fails to parse is not modelled.
- `Tracker.GroupByHost`: URLs are taken as already parsed (scheme and optional host). The URL parser is not part of this model.
- The tracker looks clients up by (name, region) with `query_row`, while the table's key is the id. The model keeps one row per (name, region), as the tracker's own writes do.
- `RateLimit.VolatileStore` follows the keyv TTL rule: a time to live of 0 stores the entry forever, and otherwise the entry is visible while now is before its expiry. Deleting expired entries is not modelled, since they are never visible.
- `RateLimit.RateLimiter.IsLimited` runs as one atomic step. The source awaits between `volatile.get` and `volatile.set` (src/lib/server/bots/utils/rate-limiter.ts:35-61), so two concurrent calls for the same key can read the same record and one of the timestamps can be lost; that interleaving is not modelled. The default `group = ''` is not modelled either: the caller passes the group.
- `RateLimit.RateLimiter.IsLimited`: `threshold`, `interval` and `cooldown` are whole numbers and times are whole milliseconds. Fractional seconds and NaN options are not modelled.
- `Digits.NumberToSuper`, `Digits.NumberToSub` and `DdnetHelpers.NumberToStars` take exact reals. NaN, infinities and floating-point rounding of JavaScript numbers are not modelled; the loop's `num % 10` and `Math.floor(num / 10)` are taken as exact on whole numbers.
- JavaScript strings are modelled as sequences of characters rather than UTF-16 code units. `toLowerCase` is a parameter.
- Handlers of the command router are named by ids; running them (and their async results) is left out. `Commands.CommandRouter.Run` returns which handler would be called, and `Ignored` stands for `{ignored: true, message: 'Unknown command'}`.
- `listSubscriptions` (src/lib/server/db/subs.ts:7-9) lists the store by key prefix in SQL and is not modelled. The persistent store is a map.

## Findings

| source | as written | input that shows it | evidently intended | confidence | as-written member | corrected member |
|---|---|---|---|---|---|---|
| src/lib/ddnet/helpers.ts:27-29 | `MAP_TYPES[type.toLowerCase()] \|\| type` looks the key up on a plain object, so inherited members of `Object.prototype` are found | `mapType("constructor")` returns the `Object` function, not a string | look up only the table's own keys and return the input otherwise | not executed | DdnetHelpers.MapTypeConstructor | DdnetHelpers.MapType |
| src/lib/ddnet/helpers.ts:55-57 | `FLAG_MAP[flag] \|\| FLAG_DEFAULT` has the same inherited-member lookup | `flagAsset("toString")` returns a function, not an image path | the default flag for every unknown code | not executed | DdnetHelpers.FlagAssetToString | DdnetHelpers.FlagAsset |

# Verified model of a search engine, its index files and its worker pool

This project models, in Dafny, the search engine that the homeworks hw1 to hw4
build, together with the buffered reader of exercise 4 and the bracket matcher
of cpplint, and proves what they are for:

* **From texts to answers.** A crawl (`CrawlFileTree.dfy`, `FileParser.dfy`,
  `DocTable.dfy`, `MemIndex.dfy`) builds an inverted index that lists, for every
  word, exactly the documents that contain it with the offsets of all its
  occurrences. Queries answered from memory and from the index file
  (`SearchEngine.dfy`) find exactly the documents whose texts contain all the
  query words, ranked by the number of occurrences, and agree with each other.
* **The index file** (`WriteIndex.dfy`, `Layout.dfy`, `Readers.dfy`,
  `QueryProcessor.dfy`). A hash table of hash tables is written with back-patched
  headers and absolute offsets. Every byte is written exactly once, the readers
  return what was stored, and a file left behind by a crash at any byte of any
  write is rejected unless it is already complete (`IndexImage.dfy`).
  What the file is in plain bytes and offsets is in `FileFormat.dfy`.
* **The checksum** (`Crc32.dfy`). The table-driven CRC is the bit-serial CRC-32 of
  section 8 of RFC 1952, and it detects every error inside a window of four bytes.
* **The worker pool** (`ThreadPool.dfy`). A mutex and condition-variable protocol as
  the steps of its threads, under every interleaving and with spurious wakeups:
  no wakeup is lost, every task finishes, shutdown ends, and no task is lost or run
  twice.
* **The containers** (`LinkedList.dfy`, `BubbleSort.dfy`, `HashTable.dfy`,
  `Tables.dfy`). Doubly linked lists with an iterator that survives removal, a
  stable bubble sort, and a chained hash table that refines a finite map over any
  run of operations, with an iterator that can delete behind its own cursor.
* **The bracket matcher** (`Brackets.dfy`, `CloseExpression.dfy`) finds exactly the
  properly nested match, in both directions and across lines.
* **The buffered reader** (`RoFile.dfy`) refines a file with one cursor for every
  pattern of short reads.

## How the model is built

Objects whose methods update fields are classes: nodes, lists, hash tables and
their iterators, the document table, the word index, the index file with its
cursor, the readers, the CRC object, the file descriptor and its buffer. Each
method is proved against a function of the old state; what the program promises
is then proved about those functions. `Tables.Table` is the value of a hash table
(its bucket array and chains), `HashTables.HashTable.View` connects an object to it.

An index file is a byte sequence with a cursor and a log of its writes
(`Files.IndexFile`); a seek past the end followed by a write leaves zeros. Integers
on disk are big-endian. `Layout.TableAt` says what it means for an image to hold a
table at an offset; all other statements about files are built on it.

The pool is a state machine whose steps run up to the next point where another
thread can take over. `Runs` and `After` range over all interleavings;
`Reachable` states are what some run leads to.

Strings are sequences of bytes without their terminator. `hide` statements in
proofs only limit which definitions the solver sees.

## Assumptions the theorems name

* Distinct words of the indexed texts have distinct 64-bit hashes
  (`FileParser.HashesApart`), as the checks at hw2/FileParser.c:273 and
  hw2/MemIndex.c:138 demand. Document names get no such check in the code; the
  theorems about crawls assume it (`DocTables.NameApart`, `Crawler.CrawlOk`), and
  `DocTables.HashFindsName` says what a collision does.
* Names and words are shorter than 2^15 bytes and the file is shorter than 2^31
  (`SearchEngine.Storable`): the widths of the length and offset fields.
* Texts are shorter than 2^31 bytes; files handed to HandleFile are not empty
  (hw2/CrawlFileTree.c:239) and have different names.

## Where the code differs from its comments

* hw1/LinkedList.c:153 frees the node that was just linked into the list. The model
  is of the append that was meant.
* hw3/WriteIndex.cc:494 reads an 8-byte payload into a 4-byte struct. The model is of
  what was meant: the low 32 bits (`Readers.Low32`).
* hw2/FileParser.c:241 says the last word is handled even if no other character
  follows it; the code drops it (`FileParser.FinalRunIsDropped`).
* The table grows when the load factor reaches 3, not when it exceeds 3; it never
  exceeds 3 (`Tables.Wf`).
* WriteIndex fails exactly when some document has an empty name, because fwrite of a
  zero-sized item returns 0 (hw3/WriteIndex.cc:450).
* The search in memory compares hashes only, the reader of the file compares the
  words: they agree if and only if no query word collides with an indexed one, or no
  document is filed under the hashes of all query words
  (`MemoryIndex.MemoryAgreesWithDisk`). `MemoryIndex.SearchCollidingWord` runs into a
  collision, and so does `DocTables.RegisterCollidingNames`: "77kepQFQ8Kl" and
  "!0IC=VloaY" have the same hash (`FnvCollision.StringsCollide`).
* ro_seek with SEEK_CUR is relative to the descriptor, not to the user's position; it
  is right exactly when no unread byte is buffered (`RoFiles.RoFile.Seek`,
  `RoFiles.SeekCurSkipsTheBuffer`). After a failed read the bytes copied so far are
  lost (`RoFiles.RoFile.Read`).
* CloseExpression from the second '<' of a shift operator, and ReverseCloseExpression
  from the '>' of an arrow, answer for the first bracket that they do push, which may
  be of another kind (`CloseExpressions.ShiftOperatorIsNotClosed`,
  `CloseExpressions.ArrowIsNotOpened`). `CloseExpressions.ClosesSameKind` and
  `CloseExpressions.OpensSameKind` say exactly when the kinds fit,
  `CloseExpressions.ClosesOwn` and `CloseExpressions.OpensOwn` when the answer is that
  of the bracket itself.
* Validation does not read the body of a file from 2^31 bytes on, because its length is
  kept in an int (`IndexImage.CorruptionIsRejected`); `IndexImage.LongBodyIsNotRead` shows
  two such files.
* Dispatch fails its check if the destructor has set the flag before the call gets the
  lock (`ThreadPool.LateDispatchFails`). When the destructor has begun this can happen if
  and only if some call still wants the lock (`ThreadPool.ChecksHold`);
  `ThreadPool.CallCanFailWhen` says it for each call, in every state after the constructor.

## Model

| member | source | states |
|---|---|---|
| SearchEngine.SearchBoth | hw3/QueryProcessor.cc:80-146 | A query answered from the file written from the tables returns, best first, exactly the documents whose texts contain all query words with their total counts; without collisions the search in memory fails exactly when nothing is found and otherwise yields the same names and ranks |
| SearchEngine.MemoryMatchesFile | hw3/QueryProcessor.cc:80-165 | For any tables whose documents are all registered, the results from the file and from memory are the same multiset of names and ranks, and the search fails exactly when the readers find nothing |
| SearchEngine.QueryFiles | hw3/QueryProcessor.cc:36-146 | Over any number of index files, validated or not, the results are the expected ones of every file, sorted by rank |
| SearchEngine.ReadBack | hw3/IndexTableReader.cc:36-100 | From a complete file: a word is found iff some text contains it; then every document comes back with its exact offsets in order, the document list has each document once with its count, and every registered name is returned |
| SearchEngine.SaveIndex | hw3/WriteIndex.cc:150-210 | Saving the index of the crawled documents fails iff some name is empty, and otherwise leaves a complete image of both tables |
| SearchEngine.ResultsAreExpected | hw3/QueryProcessor.cc:80-146 | The concatenated results of all indices are, as a multiset, what the texts call for |
| SearchEngine.HitsAreExpected | hw3/QueryProcessor.cc:86-135 | The hits of one index are exactly the documents that contain every query word, each with its total, each once |
| SearchEngine.RankIsTotal | hw3/QueryProcessor.cc:100-126 | The rank an index computes for a document is the number of occurrences of the query words in its text; documents lacking a word have none |
| SearchEngine.NullMeansNothingExpected | hw2/MemIndex.c:170-189 | Without collisions, the search in memory fails iff no text contains all query words |
| SearchEngine.TablesAreACorpus | hw3/QueryProcessor.cc:130-135 | Every document of a crawled index is registered in the document table |
| SearchEngine.WordsFit | hw3/WriteIndex.cc:516-564 | Every value of a word index is one its writers accept |
| SearchEngine.NamesFit | hw3/WriteIndex.cc:426-458 | Every value of the document table fits its record, and all can be written iff no name is empty |
| SearchEngine.NamedPermutes | hw3/QueryProcessor.cc:129-144 | Naming the hits in another order gives the same multiset of results |
| SearchEngine.PositionsArePosted | hw3/DocIDTableReader.cc:32-78 | The position list a reader returns for a word and a document is the list of its offsets in the text |
| FileFormat.TextsInBytes | hw3/LayoutStructs.h:52-231 | In plain bytes and offsets, without any reader: in the index file of some documents the id of each of them leads to its name, and a word that it contains leads, through the tables at 16 and at 16 plus the size at 8, to all its offsets there |
| FileFormat.ListedWord | hw3/LayoutStructs.h:180-197 | Whatever word the bytes of the file list is a word of some document |
| FileFormat.ListedDocument | hw3/LayoutStructs.h:203-231 | Whatever document is listed under a word contains it, with exactly the listed offsets |
| FileFormat.ElementIsListed | hw3/WriteIndex.cc:278-420 | The element of a key is reached by: the count of buckets in 4 bytes, 8 bytes for bucket key modulo that count, and one 4-byte offset per element |
| FileFormat.ListedIsElement | hw3/WriteIndex.cc:278-420 | Whatever is reached that way is an element of the table, in its bucket |
| FileFormat.NameElement | hw3/LayoutStructs.h:152-171 | A document is 8 bytes of id, 2 bytes of length and the name |
| FileFormat.WordElement | hw3/LayoutStructs.h:180-197 | A word is 2 bytes of length, 4 bytes of table size, the word and its own table |
| FileFormat.PositionElement | hw3/LayoutStructs.h:203-231 | The positions of a word in a document are 8 bytes of id, 4 bytes of count and 4 bytes for each position modulo 2^32 |
| FileFormat.TableSize | hw3/WriteIndex.cc:278-420 | A table takes 4 bytes, 8 for each bucket, and for each element an offset, its header and its contents |
| FileFormat.HeaderSizes | hw3/WriteIndex.cc:150-276 | The two sizes in the header are those numbers |
| SearchEngine.HeadersArePosted | hw3/DocIDTableReader.cc:80-134 | The header list of a word names exactly the documents that contain it, once each, with their counts |
| Crawler.CrawlFiles | hw2/CrawlFileTree.c:205-214 | After the files of a crawl were handed to HandleFile in order, the tables hold exactly the documents that have words, in that order |
| Crawler.HandleFile | hw2/CrawlFileTree.c:226-279 | A file without words changes neither table; any other becomes the next document, and each of its words maps to its offsets there and is otherwise unchanged |
| Crawler.DrainTable | hw2/CrawlFileTree.c:250-274 | The removal loop files every word of the document exactly once and empties the word table |
| Crawler.DrainOne | hw2/CrawlFileTree.c:253-273 | One turn hands the first remaining word and its positions to the index; neither check of the callees can fail |
| Crawler.DrainStep | hw2/MemIndex.c:128-157 | The next drained word collides with no indexed word, is not yet posted for this document, and becomes posted with its positions |
| Crawler.DrainDone | hw2/CrawlFileTree.c:250-278 | When the whole table has been drained, the index holds one document more and answers for all of them |
| Crawler.ParsedElements | hw2/FileParser.c:194-251 | The elements of a parsed file's table list each of its words once, with all its offsets |
| Crawler.IndexedWord | hw2/MemIndex.c:91-158 | A word is in the index iff some document contains it |
| Crawler.NextMayBeAdded | hw2/CrawlFileTree.c:226-247 | Files with distinct, collision-free names and words satisfy what HandleFile asks for, one after the other |
| Crawler.RegisteredFrom | hw2/CrawlFileTree.c:237-247 | Every registered document is one of the files already handled, and it has words |
| Crawler.ReadFileToString | hw2/FileParser.c:129-137 | The buffer holds the contents and a terminator; its text ends at the first NUL |
| Crawler.NewTables | hw2/DocTable.c:31-40 | Fresh tables hold no documents |
| FileParser.ParseIntoWordPositionsTable | hw2/FileParser.c:140-185 | A table is returned iff the text is ASCII and has a word; it maps exactly the words of the text to all their offsets |
| FileParser.InsertContent | hw2/FileParser.c:194-251 | The scan adds 32 to the bytes 65 to 90, leaves a NUL after each counted word and touches nothing else, and the table holds exactly the words of the text |
| FileParser.RecordWord | hw2/FileParser.c:244-246 | Recording the word that was just terminated keeps the table exact and the buffer as it is |
| FileParser.AddWordPosition | hw2/FileParser.c:253-298 | Appends the offset to the word, or files the word with this offset |
| FileParser.AddedFinds | hw2/FileParser.c:260-297 | Adding an offset extends the list of that word by it and changes no other word |
| FileParser.ParsedWord | hw2/FileParser.c:237-247 | At a boundary that ends a word, the collision check holds and adding the word keeps the table exact |
| FileParser.OccurrencesAreRuns | hw2/FileParser.c:228-250 | The listed offsets are exactly the starts of the maximal alphabetic runs that another byte follows and that equal the word in lower case |
| FileParser.OccurrencesInNumbers | hw2/FileParser.c:228-250 | A word is listed at an offset iff it is not empty, consists of bytes 97 to 122, each of which is in the text as it is or less 32, and is followed by a byte that is no letter and not preceded by a letter |
| FileParser.IndexableInNumbers | hw2/FileParser.c:139-186 | A text gets a table iff all its bytes are below 128 and some letter is followed by a byte that is none |
| FileParser.OccurrencesAscend | hw2/MemIndex.h:71-75 | The offsets of a word are strictly ascending |
| FileParser.FinalRunIsDropped | hw2/FileParser.c:228-251 | A run of letters that reaches the end of the text is never listed |
| FileParser.RunIsItsStart | hw2/FileParser.c:229-236 | A run is determined by the boundary that ends it |
| FileParser.WordInBuffer | hw2/FileParser.c:244-245 | The C string at word_start is the lower-cased run that has just been terminated |
| FileParser.EmptyMeansNoWords | hw2/FileParser.c:175-179 | The table is empty iff the text has no words |
| FileParser.StrLen | hw2/FileParser.c:148 | The number of bytes before the first NUL |
| DocTables.DocTable.Add | hw2/DocTable.c:57-101 | A name with a new hash gets the next id and is appended; otherwise the id filed under the hash is returned and nothing changes; without collisions the id is that of the name, and a name is appended iff it was not registered |
| DocTables.DocTable.GetDocID | hw2/DocTable.c:103-121 | The id filed under the hash of the name, 0 if none; it is the id of this name iff no other registered name has the same hash |
| DocTables.DocTable.GetDocName | hw2/DocTable.c:123-139 | The name registered under the id, if any |
| DocTables.DocTable.constructor | hw2/DocTable.c:31-40 | No names; ids will start at 1 |
| DocTables.IdsInvertNames | hw2/DocTable.c:86-98 | The two tables are inverse to each other |
| DocTables.LookupHash | hw2/DocTable.c:69-74 | Looking up a hash gives the id of the document whose name has it, if there is one |
| DocTables.HashFindsName | hw2/DocTable.c:103-121 | What is found under the hash of a name is its own id, or nothing if it has none, iff no other registered name has that hash |
| DocTables.OneMoreName | hw2/DocTable.c:83-98 | The two insertions keep the tables exact for one more name |
| DocTables.IdsFromOne | hw2/DocTable.c:62-98 | Ids count from 1 in the order of registration; 0 means that no name has the hash |
| DocTables.RegisterCollidingNames | hw2/DocTable.c:69-74 | A run: a second document whose name collides gets the id of the first, and its name is lost |
| MemoryIndex.MemIndex.AddPostingList | hw2/MemIndex.c:91-158 | The index afterwards is the old one with this document's positions filed under the word; what the two Verify333 checks demand is asked of the caller |
| MemoryIndex.PostingAdded | hw2/MemIndex.c:91-158 | Filing positions changes what the index says about this word in this document and nothing else, and keeps the index well formed |
| MemoryIndex.PostingInserted | hw2/MemIndex.c:105-157 | The word's own table gets the document; a new word's table starts with 16 buckets |
| MemoryIndex.SortedIsBestFirst | hw2/MemIndex.c:35-53 | To be sorted in descending order of the comparator is to be sorted by rank, best first |
| MemoryIndex.MemIndex.Search | hw2/MemIndex.c:160-284 | NULL exactly when the query is empty or some step gives up; otherwise a stable arrangement of the hits by descending rank, which answers the query; NULL iff no document contains every word |
| MemoryIndex.MemIndex.CollectHits | hw2/MemIndex.c:184-279 | The unsorted result list, built word by word |
| MemoryIndex.MemIndex.FilterResults | hw2/MemIndex.c:253-271 | The in-place loop keeps exactly the results that have the next word, with increased ranks; the iterator is never used once exhausted |
| MemoryIndex.MemIndex.FilterOne | hw2/MemIndex.c:259-269 | One result is re-ranked or unlinked, and the iterator stands at the next one |
| MemoryIndex.MemIndex.NewResultList | hw2/MemIndex.c:190-214 | One result per document of the first word, with its count |
| MemoryIndex.MemIndex.LookupPostings | hw2/MemIndex.c:234-241 | The postings filed under the hash of the word |
| MemoryIndex.MemIndex.constructor | hw2/MemIndex.c:79-85 | An empty index with 16 buckets |
| MemoryIndex.MemoryAgreesWithDisk | hw3/QueryProcessor.cc:93-136 | Memory and disk find the same hits iff no query word shares its hash with another indexed word, or no document is filed under the hashes of all query words |
| MemoryIndex.HitsAreFiled | hw2/MemIndex.c:184-279 | The results after n words are exactly the documents filed under the hashes of all of them |
| MemoryIndex.EmptyMeansNoneFiled | hw2/MemIndex.c:176-278 | Nothing is found iff no document is filed under all the hashes |
| MemoryIndex.SearchCollidingWord | hw2/MemIndex.c:184-186 | A run: an index that holds one of two colliding words answers a query for the other in memory, and not from the file |
| MemoryIndex.CollidingWord | hw2/MemIndex.c:184-186 | The hit lists of memory and disk for that query |
| MemoryIndex.MemIndex.FilterNext | hw2/MemIndex.c:258-270 | One turn of the filter loop keeps the looked-at part filtered and the rest untouched |
| MemoryIndex.HitsAgree | hw3/QueryProcessor.cc:94-126 | Word by word, memory and disk hold the same candidates |
| MemoryIndex.FilterIsMerge | hw3/QueryProcessor.cc:148-165 | Filtering by look-ups equals merging with the list of headers |
| MemoryIndex.NullMeansNoDocument | hw2/MemIndex.c:160-284 | The search gives up iff no document contains every query word |
| MemoryIndex.HitsNotEmpty | hw2/MemIndex.c:273-278 | A search that succeeds has results |
| MemoryIndex.CollisionMeansNoHits | hw3/IndexTableReader.cc:53-99 | A query word that collides with another one makes the disk reader find nothing |
| MemoryIndex.RearrangedAnswers | hw1/LinkedList.c:157-189 | Rearranging a list of hits keeps it an answer to the query |
| MemoryIndex.ComparatorRanks | hw2/MemIndex.c:38-49 | The comparator is a total preorder |
| Search.HitListAnswers | hw3/QueryProcessor.cc:94-126 | The hits of a query are exactly the documents containing every query word, each once, ranked by the sum of the counts |
| Search.HitsAnswer | hw3/QueryProcessor.cc:94-126 | The same after every prefix of the query |
| Search.MergeRank | hw3/QueryProcessor.cc:148-165 | A merged list ranks exactly the documents of both lists, by the sum |
| Search.MergeDistinct | hw3/QueryProcessor.cc:148-165 | Merging keeps documents distinct |
| Search.EmptyStaysEmpty | hw3/QueryProcessor.cc:119-122 | Leaving the loop once no candidate is left loses nothing |
| Search.HeadersAnswer | hw3/DocIDTableReader.cc:80-134 | The header list of a word ranks exactly its documents, each once |
| QueryProcessing.QueryProcessor.ProcessQuery | hw3/QueryProcessor.cc:80-146 | The results of all indices as a multiset, in non-increasing order of rank |
| QueryProcessing.QueryProcessor.constructor | hw3/QueryProcessor.cc:36-55 | Complete index files are opened and their readers stand on their tables |
| QueryProcessing.MatchingDocs | hw3/QueryProcessor.cc:94-126 | The candidate list of one index is its hit list; nothing if some word is missing |
| QueryProcessing.NameDocs | hw3/QueryProcessor.cc:129-136 | Every hit is named, in order; the check of the look-up never fails |
| QueryProcessing.MergeResult | hw3/QueryProcessor.cc:148-165 | The nested loops compute the merge of the two lists |
| QueryProcessing.HitsAreNamed | hw3/QueryProcessor.cc:133 | Every hit of a query is a registered document |
| QueryProcessing.StdSort | hw3/QueryProcessor.cc:144 | Some rearrangement in non-increasing order of rank |
| QueryProcessing.InsertSorted | hw3/QueryProcessor.cc:144 | Inserting keeps the order and the multiset |
| Writer.WriteIndex | hw3/WriteIndex.cc:150-210 | Fails iff a document name is empty; otherwise the file is a complete index, every byte was written exactly once, and the header was written last; it begins with CA FE F0 0D, the CRC of the rest and the sizes of the two tables |
| Writer.WriteHashTable | hw3/WriteIndex.cc:278-333 | Writes every byte of its region exactly once and nothing else, and leaves the table readable there; fails iff an element does |
| Writer.WriteHTBucket | hw3/WriteIndex.cc:359-419 | The same for one bucket with its position records |
| Writer.WriteHTBucketRecord | hw3/WriteIndex.cc:335-357 | Exactly the 8 bytes of the record, with count and offset |
| Writer.WriteElement | hw3/WriteIndex.cc:399-408 | Dispatch to the element writer: exact region, readable element |
| Writer.WriteDocidToDocnameFn | hw3/WriteIndex.cc:426-458 | Id, length and name; fails iff the name is empty |
| Writer.WriteDocIDToPositionListFn | hw3/WriteIndex.cc:463-512 | Id, count and the low 32 bits of every position |
| Writer.WriteWordToPostingsFn | hw3/WriteIndex.cc:516-564 | The word and its nested table first, then the header with the size of the nested table |
| Writer.WriteDocTable | hw3/WriteIndex.cc:215-220 | The document table at the given offset |
| Writer.WriteMemIndex | hw3/WriteIndex.cc:222-227 | The word index at the given offset |
| Writer.WriteHeader | hw3/WriteIndex.cc:229-276 | Magic number, checksum of everything beyond the header, and both sizes, in one write at offset 0 |
| Writer.TwoRegionStep | hw3/WriteIndex.cc:309-329 | Writing a bucket and then its record, in disjoint places, writes the union once each |
| Writer.TableStep | hw3/WriteIndex.cc:309-329 | One turn of the bucket loop extends the readable part of the table by one bucket |
| Writer.BucketStep | hw3/WriteIndex.cc:384-414 | One turn of the element loop extends the readable part of the bucket by one element |
| Writer.PostingsStep | hw3/WriteIndex.cc:530-558 | Back-patching the header leaves the word and the nested table readable |
| Writer.PositionStep | hw3/WriteIndex.cc:490-505 | One turn of the position loop extends the readable positions by one |
| Writer.BodyStep | hw3/WriteIndex.cc:169-189 | The two tables tile the file beyond the header |
| Writer.HeaderStep | hw3/WriteIndex.cc:191-205 | The header completes the file without touching the tables |
| Files.CoverInside | hw3/WriteIndex.cc:278-333 | A byte that was written lies inside the file |
| Files.WroteOnce | hw3/WriteIndex.cc:426-458 | One fwrite covers its region once and nothing else |
| Files.WroteKeeps | hw3/WriteIndex.cc:278-419 | Writing elsewhere keeps what was written before |
| Files.IndexFile.FWrite | hw3/WriteIndex.cc:442-452 | fwrite at the cursor: overwrites or extends, with zeros up to a cursor beyond the end; an item of size 0 reports 0 items |
| Files.IndexFile.FRead | hw3/HashTableReader.cc:33-35 | fread at the cursor, or nothing when the file is too short |
| Files.IndexFile.Seek | hw3/WriteIndex.cc:439-441 | Moves the cursor, also beyond the end |
| Layout.TableFrame | hw3/WriteIndex.cc:278-333 | A table stays readable as long as no byte of its region changes |
| Layout.BucketPosNext | hw3/WriteIndex.cc:309-329 | A bucket starts where the previous one ends |
| Layout.DoctableHeaderRead | hw3/LayoutStructs.h:152-171 | The packed document header reads back as id and length |
| Layout.DocIDHeaderRead | hw3/LayoutStructs.h:203-219 | The packed position-list header reads back as id and count |
| Layout.PostingsHeaderRead | hw3/LayoutStructs.h:180-197 | The packed word header reads back as length and size |
| Layout.BucketRecordRead | hw3/LayoutStructs.h:111-133 | The packed bucket record reads back as count and offset |
| Bytes.Be64RoundTrip | hw3/LayoutStructs.h:152-171 | Big-endian 64-bit integers read back |
| Bytes.FieldsSpell | hw3/LayoutStructs.h:70-82 | A 2, 4 or 8 byte field holds the number that its bytes spell to the base 256, the most significant first |
| Bytes.Be32RoundTrip | hw3/LayoutStructs.h:98-109 | Big-endian 32-bit integers read back |
| Bytes.Be16RoundTrip | hw3/LayoutStructs.h:180-197 | Big-endian 16-bit integers read back |
| IndexImage.CrashIsRejected | hw3/WriteIndex.cc:150-276 | After a crash at any byte of any write, the file is accepted iff it is already the complete index |
| IndexImage.PrefixIsRejected | hw3/WriteIndex.cc:150-276 | After any number of whole writes but all of them, the file is rejected, with or without validation |
| IndexImage.CrashInBody | hw3/WriteIndex.cc:169-189 | Before the header is written, no file is accepted, with or without validation |
| IndexImage.CrashInHeader | hw3/WriteIndex.cc:229-276 | A header cut off after any number of bytes is rejected unless nothing is missing |
| IndexImage.TornHeader | hw3/WriteIndex.cc:229-276 | Sizes that lost bytes cannot add up to the size of the file |
| IndexImage.CompleteIsAccepted | hw3/FileIndexReader.cc:41-79 | A complete index passes the magic, size and checksum tests |
| IndexImage.CorruptionIsRejected | hw3/FileIndexReader.cc:57-79 | Validation rejects a change inside a window of four bytes beyond the header iff the body is shorter than 2^31 bytes; longer ones it does not read |
| IndexImage.LongBodyIsNotRead | hw3/FileIndexReader.cc:57-79 | Two files of 2^31 bytes beyond the header that differ in the first of them are both accepted with validation |
| IndexImage.AcceptedBytes | hw3/FileIndexReader.cc:40-80 | A file is accepted iff it begins with CA FE F0 0D, 16 plus the two sizes is its length modulo 2^32 and, when validated, the checksum is that of everything beyond the header, or of nothing from 2^31 bytes on |
| IndexImage.CompleteBytes | hw3/WriteIndex.cc:150-276 | A complete file begins with CA FE F0 0D, the CRC of everything beyond byte 16 and the two sizes; the tables start at 16 and right after the first one |
| IndexImage.HeaderRead | hw3/LayoutStructs.h:52-83 | The packed file header reads back as its four fields |
| IndexReader.FileIndexReader.Open | hw3/FileIndexReader.cc:28-82 | For images of any size: succeeds iff the file begins with CA FE F0 0D and size and, if asked for, checksum are right, with sizes that wrap at 32 bits and a body length that turns negative as coded; the reader then knows where both tables of the image start |
| IndexReader.FileIndexReader.ChunkedCrc | hw3/FileIndexReader.cc:62-78 | Folding chunks of at most 512 bytes gives the checksum of that many bytes, of none if the number is negative |
| IndexReader.LeftToRead | hw3/FileIndexReader.cc:65 | The signed sum of the two sizes is the number of bytes beyond the header, or negative from 2^31 on |
| IndexReader.FileIndexReader.NewDocTableReader | hw3/FileIndexReader.cc:89-98 | The reader stands on the document table |
| IndexReader.FileIndexReader.NewIndexTableReader | hw3/FileIndexReader.cc:100-108 | The reader stands on the word index |
| Readers.HashTableReader.constructor | hw3/HashTableReader.cc:28-36 | Reads the number of buckets at its offset |
| Readers.HashTableReader.LookupElementPositions | hw3/HashTableReader.cc:43-80 | The offsets of all elements of the bucket of the key, in chain order |
| Readers.DocTableReader.LookupDocID | hw3/DocTableReader.cc:33-79 | The stored name of the document, or nothing iff it is not in the table |
| Readers.DocIDTableReader.LookupDocID | hw3/DocIDTableReader.cc:32-78 | The stored positions in order, or nothing iff the document is not in the table |
| Readers.DocIDTableReader.GetDocIDList | hw3/DocIDTableReader.cc:80-134 | Every document with its count, once, in iteration order |
| Readers.IndexTableReader.LookupWord | hw3/IndexTableReader.cc:36-100 | Null iff the word itself is not indexed; otherwise a reader standing on that word's own table |
| Readers.ReadPositions | hw3/DocIDTableReader.cc:60-66 | Reads the positions of an element in order |
| Readers.ReadRecord | hw3/HashTableReader.cc:58-60 | One record at the cursor, field by field |
| Readers.ReadString | hw3/DocTableReader.cc:59-65 | A string read character by character |
| Crc32.CRC32.Initialize | hw3/Utils.cc:71-84 | Entry k of the table is the value that the reflections compute, and that is eight right-shift steps of k |
| Crc32.CRC32.FoldByteIntoCRC | hw3/Utils.cc:58-61 | One table step is eight bit-serial steps: the object holds the CRC state of all bytes folded so far |
| Crc32.CRC32.GetFinalCRC | hw3/Utils.cc:63-69 | The CRC-32 of the bytes folded in, also when asked again |
| Crc32.CRC32.constructor | hw3/Utils.cc:44-56 | A fresh state that has folded nothing |
| Crc32.CRC32Reflect | hw3/Utils.cc:31-42 | The loop reverses the low bits of its argument |
| Crc32.ReflectSteps | hw3/Utils.cc:71-84 | For all 32-bit values, reflecting n left-shift steps with 0x04C11DB7 is n right-shift steps with the reflected polynomial |
| Crc32.TableEntryIsEightSteps | hw3/Utils.cc:71-84 | The table built with reflections is the table of eight right-shift steps |
| Crc32.TableFold | hw3/Utils.cc:58-61 | A table look-up on the low byte equals eight steps of the state |
| Crc32.StepsXor | hw3/Utils.cc:58-61 | The CRC steps are linear |
| Crc32.StepsInjective | hw3/Utils.cc:58-61 | The CRC steps lose no information |
| Crc32.ShiftWord | hw3/Utils.cc:58-61 | Up to four bytes can be folded in as one word |
| Crc32.WindowSeen | hw3/Utils.cc:58-69 | Different windows of at most four bytes lead to different states |
| Crc32.BurstDetected | hw3/Utils.cc:58-69 | Equal-length sequences that differ only inside four consecutive bytes have different CRCs |
| Crc32.CheckValue | hw3/Utils.cc:31-84 | The CRC of "123456789" is CBF43926 |
| Crc32.StatesLead | hw3/Utils.cc:58-61 | The CRC state after a sequence is the last of its states |
| Crc32.ShiftAllAppend | hw3/FileIndexReader.cc:66-77 | Folding in chunks is folding the whole |
| Fnv.FNVHash | hw1/HashTable.c:45-63 | The loop computes the FNV-1a hash of all bytes |
| FnvCollision.StringsCollide | hw1/HashTable.c:45-63 | Two different non-empty strings without a NUL have the same 64-bit hash |
| FnvCollision.StatesLead | hw1/HashTable.c:52-61 | The hash of a string is the last of its states |
| FnvCollision.KnownHashes | hw1/HashTable.c:43-63 | The hashes of the empty string and of "foobar" are the published ones |
| Tables.HashTableIsAMap | hw1/HashTable.c:145-217 | Every run of insertions, look-ups and removals from an empty table hands back what a finite map would, with as many elements as the map has keys and at most 3 per bucket |
| Tables.TableGrows | hw1/HashTable.c:342-377 | After any run of operations the number of buckets is the first one times nine for every insertion that found three elements per bucket or more |
| Tables.RunGrows | hw1/HashTable.c:342-377 | The same from any table that represents a map |
| Tables.ChainsKeepOrder | hw1/HashTable.c:145-185 | Each chain lists the inserted elements whose key belongs there in the order of their insertion |
| Tables.ResizeKeepsOrder | hw1/HashTable.c:346-371 | A resize makes nine times as many buckets and lets each chain list its elements in iteration order |
| Tables.PutKeepsOrder | hw1/HashTable.c:145-185 | A stored value takes the place of the old one, or comes last in the chain of key modulo the number of buckets; nothing else changes |
| Tables.RemoveKeepsOrder | hw1/HashTable.c:199-217 | A removal leaves the other elements of every chain in their order |
| Tables.RunRefines | hw1/HashTable.c:145-217 | The same from any table that represents a map |
| Tables.ApplyRefines | hw1/HashTable.c:145-217 | One operation keeps the table representing the map |
| Tables.InsertFinds | hw1/HashTable.c:145-180 | Insertion changes the value of one key; the count grows iff the key was absent |
| Tables.PutFinds | hw1/HashTable.c:145-180 | The same without the resize, each key still once in its bucket |
| Tables.RemoveFinds | hw1/HashTable.c:199-217 | Removal takes out one key; the count shrinks iff it was there |
| Tables.RemoveKeepsWf | hw1/HashTable.c:199-217 | Removal keeps placement and load factor |
| Tables.ResizePreserves | hw1/HashTable.c:342-377 | A resize keeps every look-up and the count, and leaves room, so that the insertion that follows never resizes again |
| Tables.PutAllFinds | hw1/HashTable.c:357-365 | Re-inserting distinct elements keeps them all |
| Tables.EntriesDistinct | hw1/HashTable.c:223-316 | Iteration lists each key at most once |
| Tables.EntriesAreFound | hw1/HashTable.c:223-316 | Iteration lists exactly the pairs that look-ups find |
| Tables.LookInEntries | hw1/HashTable.c:223-316 | Searching the iteration answers as the table does |
| Tables.AllocateWf | hw1/HashTable.c:65-85 | A new table is well formed and empty |
| Tables.RepresentsIntro | hw1/HashTable.c:117-120 | A table with the look-ups of a map has as many elements as the map has keys |
| Tables.IndexIn | hw1/HashTable.c:126-143 | The first element of the chain with the key, or the length of the chain |
| HashTables.HashTable.Insert | hw1/HashTable.c:145-180 | The new table is the value-level insertion; the old value is handed back |
| HashTables.HashTable.PutPair | hw1/HashTable.c:154-179 | Replace in place or append to the chain |
| HashTables.HashTable.Find | hw1/HashTable.c:182-197 | The value stored under the key |
| HashTables.HashTable.Remove | hw1/HashTable.c:199-217 | The new table is the value-level removal, all other nodes stay; the old value is handed back |
| HashTables.HashTable.Update | hw2/MemIndex.c:132-157 | Storing through the pointer that a look-up returned changes that value only |
| HashTables.HashTable.MaybeResize | hw1/HashTable.c:342-377 | The new table is the value-level resize, and it has room |
| HashTables.HashTable.CopyInto | hw1/HashTable.c:357-365 | The copy loop re-inserts every element in iteration order |
| HashTables.HashTable.CopyOne | hw1/HashTable.c:361-364 | One turn of the copy loop; the inner insertion never resizes |
| HashTables.HashTable.TakeOver | hw1/HashTable.c:370-376 | The record swap makes this object the new table |
| HashTables.HashTable.InsertFindHelper | hw1/HashTable.c:126-143 | An iterator at the element with the key, or null iff there is none |
| HashTables.FindInChain | hw1/HashTable.c:126-143 | The walk stops at the first element with the key |
| HashTables.HashTable.AppendTo | hw1/HashTable.c:166-171 | One chain grows by one element, the others are untouched |
| HashTables.HashTable.StoreAt | hw1/HashTable.c:174-179 | One payload is replaced, the chains stay linked |
| HashTables.HashTable.RemoveFrom | hw1/HashTable.c:212-215 | One node is unlinked from one chain |
| HashTables.HashTable.constructor | hw1/HashTable.c:65-85 | An empty table with the given number of separate chains |
| HashTables.HashTable.FirstNonEmpty | hw1/HashTable.c:244-249 | The next bucket that is not empty |
| HashTables.HashTable.Snapshot | hw3/WriteIndex.cc:309-329 | Walking all chains sees the value of the table |
| HashTables.ReadChain | hw3/WriteIndex.cc:382-414 | Walking one chain sees its payloads in order |
| HashTables.RoomForMore | hw1/HashTable.c:348-365 | While a resize copies, the new table is never full |
| HashTables.HTIterator.constructor | hw1/HashTable.c:223-253 | The iterator stands at the first element |
| HashTables.HTIterator.IsValid | hw1/HashTable.c:264-272 | Whether an element is left |
| HashTables.HTIterator.Get | hw1/HashTable.c:304-316 | The element at the position in iteration order |
| HashTables.HTIterator.Next | hw1/HashTable.c:274-302 | Advances by exactly one element |
| HashTables.HTIterator.NextBucket | hw1/HashTable.c:287-301 | Skips empty buckets without losing an element |
| HashTables.HTIterator.EnterBucket | hw1/HashTable.c:294-297 | A new chain iterator stands at the first element of its bucket |
| HashTables.NextPosition | hw1/HashTable.c:289-300 | The first element of the next bucket that is not empty follows the last one of this bucket |
| HashTables.LastPosition | hw1/HashTable.c:289-301 | Without such a bucket the iteration ends here |
| HashTables.HTIterator.Remove | hw1/HashTable.c:318-340 | Hands out the element under the cursor and removes it; the iterator stays valid at the same position; the checks in the code hold |
| HashTables.HTIterator.AtPos | hw1/HashTable.c:264-316 | The element under the iterator is the one at its position in iteration order |
| HashTables.VisitAll | hw1/HashTable.c:223-316 | A loop over an iterator visits every element exactly once |
| HashTables.DrainAll | hw2/CrawlFileTree.c:250-274 | A loop of removals hands out every element exactly once, empties the table and ends |
| HashTables.RemovedEntry | hw1/HashTable.c:318-340 | Removing by key the element at a position takes exactly that element out of the iteration |
| HashTables.PositionAfterDelete | hw1/HashTable.c:318-340 | A removal behind the cursor moves its position back by one |
| HashTables.FlattenDelete | hw1/HashTable.c:318-340 | Deleting from one chain deletes one element of the iteration |
| LinkedLists.LinkedList.Push | hw1/LinkedList.c:66-93 | A new node in front; links stay mutually inverse |
| LinkedLists.LinkedList.Pop | hw1/LinkedList.c:95-126 | Removes the first payload, fails iff the list is empty |
| LinkedLists.LinkedList.Append | hw1/LinkedList.c:128-154 | A new node at the end; links stay mutually inverse |
| LinkedLists.LinkedList.Slice | hw1/LinkedList.c:302-329 | Removes the last payload, fails iff the list is empty |
| LinkedLists.LinkedList.Sort | hw1/LinkedList.c:157-189 | For any total preorder: a stable permutation of the payloads in which no payload compares greater (ascending) or less (descending) than a later one; links unchanged; it ends |
| LinkedLists.LinkedList.Pass | hw1/LinkedList.c:170-187 | A pass that swaps lowers the number of inversions; one that does not found neighbours in order |
| LinkedLists.LinkedList.SwapWithNext | hw1/LinkedList.c:178-185 | Swaps two neighbouring payloads |
| LinkedLists.LinkedList.constructor | hw1/LinkedList.c:23-35 | An empty list |
| LinkedLists.LinkedList.Splice | hw1/LinkedList.c:284-293 | Unlinks an inner node |
| LinkedLists.LLIterator.Remove | hw1/LinkedList.c:242-297 | All four cases: the payload is removed and the iterator lands on the successor, on the predecessor if the tail was removed, or nowhere if the list is now empty |
| LinkedLists.LLIterator.Next | hw1/LinkedList.c:221-232 | Advances by one |
| LinkedLists.LLIterator.Get | hw1/LinkedList.c:234-240 | The payload at the position |
| LinkedLists.LLIterator.Set | hw1/LinkedList.c:234-240 | Storing through the payload pointer changes that payload only |
| LinkedLists.LLIterator.IsValid | hw1/LinkedList.c:214-219 | Whether the iterator stands on an element |
| LinkedLists.LLIterator.Rewind | hw1/LinkedList.c:331-333 | Back to the first element |
| LinkedLists.LLIterator.constructor | hw1/LinkedList.c:195-207 | Starts at the first element |
| BubbleSort.SwapRemovesInversion | hw1/LinkedList.c:178-185 | Each swap removes exactly one inversion |
| BubbleSort.SwapIsStable | hw1/LinkedList.c:178-185 | Swapping neighbours that are out of order never reorders equals |
| BubbleSort.NeighboursSorted | hw1/LinkedList.c:186-188 | Neighbours in order means the whole list is in order |
| ThreadPool.NoLostWakeup | hw4/ThreadPool.cc:95-101 | In every reachable state with workers, a non-empty queue before termination leaves some worker unblocked |
| ThreadPool.BlocksOnlyWhenIdle | hw4/ThreadPool.cc:116-118 | A worker blocks only when the queue is empty and no shutdown has begun |
| ThreadPool.NoStuckShutdown | hw4/ThreadPool.cc:60-75 | Once the terminate flag is visible, no worker is blocked |
| ThreadPool.NoWorkerTakesMore | hw4/ThreadPool.cc:119-128 | In every run, once the terminate flag is set nothing is dispatched any more and the queue stays as it is until all workers have been joined; no worker ever runs a task that was still queued |
| ThreadPool.QueueWaits | hw4/ThreadPool.cc:60-131 | The same from any state that satisfies the invariant; once all workers are joined they stay so |
| ThreadPool.FlagStep | hw4/ThreadPool.cc:60-131 | With the flag set, no step before the last join takes a task from the queue or adds one |
| ThreadPool.WorkerIsFree | hw4/ThreadPool.cc:104-138 | A worker is held up only by the lock that it wants, or because it is not created yet or dead |
| ThreadPool.ClientIsFree | hw4/ThreadPool.cc:95-101 | A client is held up only by the lock that it wants or by its failed check, and may call Dispatch until the destructor begins |
| ThreadPool.OwnerIsFree | hw4/ThreadPool.cc:27-92 | The owner is held up only by the lock that it wants or by the thread that it joins |
| ThreadPool.WakeupWithoutCause | hw4/ThreadPool.cc:116-121 | A worker may wake without cause; with an empty queue it blocks again and everything is as before |
| ThreadPool.SignalWakesOne | hw4/ThreadPool.cc:95-101 | A signal may wake any one of the waiting workers and no other |
| ThreadPool.ShutdownEnds | hw4/ThreadPool.cc:60-92 | From then on every run has at most a fixed number of steps, whatever the scheduling |
| ThreadPool.ShutdownOnlyProgresses | hw4/ThreadPool.cc:60-92 | During shutdown nothing can block again, wake without cause or be dispatched |
| ThreadPool.ProgressDecreases | hw4/ThreadPool.cc:60-138 | Every step the pool takes by itself leaves less to do |
| ThreadPool.StuckMeansFinished | hw4/ThreadPool.cc:86-92 | When nothing is left to do and no check has failed, every dispatched task has finished; during shutdown, only when the destructor has returned |
| ThreadPool.EveryTaskFinishes | hw4/ThreadPool.cc:95-131 | Left alone in use, a pool with workers takes a bounded number of steps, after which every task ever dispatched has finished, unless a check failed |
| ThreadPool.ProgressEnds | hw4/ThreadPool.cc:60-138 | Every run of steps the pool takes by itself is bounded by its measure |
| ThreadPool.DoneMeansFinished | hw4/ThreadPool.cc:86-92 | After the destructor every dispatched task has run |
| ThreadPool.HolderCanStep | hw4/ThreadPool.cc:107-138 | The holder of the lock can always go on, unless its check fails |
| ThreadPool.TasksAreConserved | hw4/ThreadPool.cc:86-131 | Dispatched tasks are the picked-up ones in FIFO order followed by the queue; each picked-up task is in flight in one thread or finished, never both; the counter is the number of live workers |
| ThreadPool.ChecksHold | hw4/ThreadPool.cc:60-100 | When the destructor has begun and not yet set the flag, some run leads to a failed check in Dispatch iff some call wants the lock; the check in the destructor never fails |
| ThreadPool.CallCanFailWhen | hw4/ThreadPool.cc:60-100 | In every reachable state of a constructed pool, some run leads to a failed check in a given client's call iff the destructor has not begun, or the call wants the lock and no check has failed, or its check is failing; so a call that holds the lock when the destructor begins never fails |
| ThreadPool.PendingCanFail | hw4/ThreadPool.cc:60-100 | A call that wants the lock once the destructor has begun fails its check in some run |
| ThreadPool.SafeRun | hw4/ThreadPool.cc:60-100 | Once the destructor has begun, a call that is past its check, or has not begun, fails it in no run |
| ThreadPool.FailureLasts | hw4/ThreadPool.cc:95-100 | After a failed check no other call gets the lock |
| ThreadPool.LateDispatchFails | hw4/ThreadPool.cc:60-97 | A run from the constructor on in which a call that wants the lock when the destructor begins fails its check |
| ThreadPool.ReachableInv | hw4/ThreadPool.cc:27-138 | The invariant holds in every reachable state |
| ThreadPool.InvStep | hw4/ThreadPool.cc:27-138 | Every step of every thread keeps the invariant |
| ThreadPool.InvRun | hw4/ThreadPool.cc:27-138 | Every run keeps it |
| ThreadPool.LockStep | hw4/ThreadPool.cc:27-138 | At every step exactly the thread inside a critical section holds the lock |
| ThreadPool.OwnerPhaseStep | hw4/ThreadPool.cc:27-92 | Steps of the constructor and the destructor keep every worker in a state that fits their phase |
| ThreadPool.WorkerPhaseStep | hw4/ThreadPool.cc:95-138 | So do the steps of workers and callers |
| ThreadPool.PhaseStep | hw4/ThreadPool.cc:27-92 | The phases of constructor, use and destructor fit the states of the workers at every step |
| ThreadPool.CountStep | hw4/ThreadPool.cc:113-135 | num_threads_running_ counts the live workers at every step |
| ThreadPool.FifoStep | hw4/ThreadPool.cc:98-123 | The queue is the unpicked rest of the dispatched tasks at every step |
| ThreadPool.WakeStep | hw4/ThreadPool.cc:98-131 | A worker about to block finds the queue empty, at every step |
| ThreadPool.TaskStep | hw4/ThreadPool.cc:121-131 | Each picked-up task is in flight once or finished, at every step |
| ThreadPool.MeasureIsBounded | hw4/ThreadPool.cc:60-92 | The measure of what is left is never negative once the pool is constructed |
| RoFiles.PerformAll | exercises/ex4/ro_file.c:76-130 | Any sequence of reads, tells and absolute seeks answers as a file with one cursor would, for every pattern of short reads; it is cut short exactly when a read() fails, after answers that are right |
| RoFiles.OneCursor | exercises/ex4/ro_file.c:76-130 | What the one cursor does: a read hands out the next bytes, fewer than asked for only when none are left; SEEK_SET counts from the start, SEEK_END from the end, and a negative target fails and stays |
| RoFiles.EachAnswers | exercises/ex4/ro_file.c:76-130 | In a run each operation answers at the position where the ones before it end |
| RoFiles.Perform | exercises/ex4/ro_file.c:76-130 | One operation answers as a file with one cursor would; it fails exactly when a read() does |
| RoFiles.RoFile.Read | exercises/ex4/ro_file.c:76-101 | Exactly the next min(len, remaining) bytes; it fails exactly when a read() does, and then the position has moved past the bytes already copied |
| RoFiles.RoFile.FillBuffer | exercises/ex4/ro_file.c:182-220 | Fills the used-up buffer with the next bytes of the file, as many as fit or exist; fails exactly when a read() does; the position stays |
| RoFiles.RoFile.FlushBuffer | exercises/ex4/ro_file.c:164-179 | Copies min(amount, buffered) bytes of the file and advances the position by as many |
| RoFiles.RoFile.Seek | exercises/ex4/ro_file.c:111-130 | SEEK_SET moves to the offset, SEEK_END to the size plus the offset, and a negative target fails and stays; with SEEK_CUR the move is relative to the position iff no unread byte is buffered |
| RoFiles.RoFile.Tell | exercises/ex4/ro_file.c:103-108 | The user's position |
| RoFiles.RoFile.constructor | exercises/ex4/ro_file.c:46-74 | Opens at position 0 with an empty buffer |
| RoFiles.Descriptor.Read | exercises/ex4/ro_file.c:205 | read(): some positive number of the next bytes, 0 at the end, or an error, which is counted |
| RoFiles.Descriptor.Lseek | exercises/ex4/ro_file.c:119 | lseek(): negative targets are refused |
| RoFiles.SeekCurSkipsTheBuffer | exercises/ex4/ro_file.c:111-130 | A run: after the first of 600 bytes was read without a failure, a successful SEEK_CUR by 0 moves from position 1 to position 512 |
| CloseExpressions.CloseFindsNested | cpplint.py:2103-2144 | On lines without angle brackets: succeeds iff the bracket has a properly nested match, and returns the place just past it |
| CloseExpressions.ReverseFindsNested | cpplint.py:2224-2259 | Backwards: succeeds iff the bracket has a properly nested match, and returns it |
| CloseExpressions.RoundTrip | cpplint.py:2103-2259 | Each finds the other, across any number of lines |
| CloseExpressions.CloseExpression | cpplint.py:2103-2144 | The loop over the lines computes the place where the scan ends the expression, and the code for failure otherwise |
| CloseExpressions.ReverseCloseExpression | cpplint.py:2224-2259 | The same backwards |
| CloseExpressions.FindEndOfExpressionInLine | cpplint.py:2025-2100 | The loop over a line computes the scan with all branches for angle brackets, operators and semicolons |
| CloseExpressions.FindStartOfExpressionInLine | cpplint.py:2147-2221 | The same backwards, with its skipped characters |
| CloseExpressions.ClosesSameKind | cpplint.py:2103-2144 | On any lines: nothing is returned if no bracket is pushed, and otherwise what is returned is just past a bracket of the kind that closes the given one iff the bracket that is first pushed is of the same kind |
| CloseExpressions.ClosesOwn | cpplint.py:2038-2144 | On any lines: the end that is returned is the end of the group of the given bracket itself iff that bracket is pushed, that is, unless it is the second of a shift operator or ends the name of an operator |
| CloseExpressions.EndIsCloser | cpplint.py:2062-2087 | Whatever is returned is just past a closing bracket or a > that is neither part of an arrow nor after the name of an operator |
| CloseExpressions.OpenRule | cpplint.py:2040-2042 | A bracket of another kind is pushed |
| CloseExpressions.CloseRule | cpplint.py:2056-2074 | A closing bracket drops the pending < and takes its opening one off the stack, which is the end if it is the last one; under another one the search fails |
| CloseExpressions.LonelyCloseRule | cpplint.py:2062-2065 | A closing bracket with nothing but pending < fails |
| CloseExpressions.LessRules | cpplint.py:2043-2055 | A < is pushed unless the name of an operator ends there; the second one of a shift takes the first one off the stack and fails if nothing is left |
| CloseExpressions.GreaterRules | cpplint.py:2075-2087 | The > of an arrow or after the name of an operator does nothing; any other one takes a pending < off the stack, which is the end if it is the last one |
| CloseExpressions.OtherRules | cpplint.py:2088-2097 | A semicolon drops the pending < and fails if nothing is left; a character that is no bracket and no semicolon does nothing |
| CloseExpressions.OperatorName | cpplint.py:2050-2052 | The word operator with blanks after it ends with the name of an operator iff it does not follow a word character |
| CloseExpressions.OperatorNameParts | cpplint.py:2050-2052 | No other text does |
| CloseExpressions.WhatStarts | cpplint.py:2122-2125 | The search begins only at one of ( { [ <, not at << or <=, and backward only at one of ) } ] > |
| CloseExpressions.BelowLines | cpplint.py:2038-2144 | With one more angle bracket at the bottom of the stack the end is later, if there is one |
| CloseExpressions.ClosesFirstPushed | cpplint.py:2127-2144 | The answer for the bracket that is first pushed is the answer for the given one; without any there is none |
| CloseExpressions.EndScanFromNothing | cpplint.py:2038-2100 | A scan with an empty stack starts at the first bracket that is pushed, or ends the search |
| CloseExpressions.OpensSameKind | cpplint.py:2224-2259 | On any lines: nothing is returned if no bracket is pushed, and otherwise what is returned is a bracket of the kind that opens the given one iff the bracket that is first pushed is of the same kind |
| CloseExpressions.OpensOwn | cpplint.py:2163-2259 | On any lines: the start that is returned is the start of the group of the given bracket itself iff that bracket is pushed, that is, unless it belongs to an arrow, a spaced comparison or the name of an operator |
| CloseExpressions.StartIsOpener | cpplint.py:2178-2205 | Whatever is returned is an opening bracket or a < that does not follow another one |
| CloseExpressions.CloseRuleBack | cpplint.py:2165-2167 | Backward, a closing bracket is pushed |
| CloseExpressions.OpenRuleBack | cpplint.py:2190-2208 | Backward, an opening bracket drops the pending > and takes its closing one off the stack, which is the start if it is the last one; under another one the search fails |
| CloseExpressions.LonelyOpenRuleBack | cpplint.py:2190-2198 | Backward, an opening bracket with nothing but pending > fails |
| CloseExpressions.GreaterRulesBack | cpplint.py:2168-2178 | The > of an arrow, of a spaced >= or of the name of an operator is skipped with the character before it; any other one is pushed |
| CloseExpressions.LessRulesBack | cpplint.py:2179-2190 | Both characters of a shift are skipped; any other < takes a pending > off the stack, which is the start if it is the last one |
| CloseExpressions.OtherRulesBack | cpplint.py:2209-2217 | Backward, a semicolon drops the pending > and fails if nothing is left; other characters do nothing |
| CloseExpressions.BelowLinesBack | cpplint.py:2163-2259 | With one more angle bracket at the bottom of the stack the start is earlier, if there is one |
| CloseExpressions.OpensFirstPushed | cpplint.py:2241-2259 | The answer for the bracket that is first pushed is the answer for the given one; without any there is none |
| CloseExpressions.StartScanFromNothing | cpplint.py:2163-2221 | The same for the backward scan, with the characters it skips |
| CloseExpressions.ArrowIsNotOpened | cpplint.py:2169-2177 | A concrete line on which the bracket of an arrow is answered with the start of another group |
| CloseExpressions.ShiftOperatorIsNotClosed | cpplint.py:2043-2051 | A concrete line on which the second bracket of a shift operator is answered with the end of another group |
| CloseExpressions.EndScanBottom | cpplint.py:2038-2100 | The bottom of the stack stays the given bracket until the scan ends |
| CloseExpressions.EndLinesIsRun | cpplint.py:2131-2144 | Scanning line by line is running the stack machine over the joined text |
| CloseExpressions.StartLinesIsRunBack | cpplint.py:2246-2259 | The same backwards |
| CloseExpressions.PopWhile | cpplint.py:2062-2063 | Drops exactly the pending angle brackets |
| Brackets.RunFindsNested | cpplint.py:2025-2100 | The stack machine stops exactly at the properly nested match |
| Brackets.RunBackFindsNested | cpplint.py:2147-2221 | The same from the right |
| Brackets.MachinesAgree | cpplint.py:2025-2221 | The two machines find each other |
| Brackets.RunPasses | cpplint.py:2038-2075 | Properly nested text leaves the stack as it was |
| Brackets.RunCloses | cpplint.py:2038-2075 | A run that ends has read properly nested text before each bracket it closed |
| Brackets.RunBackPasses | cpplint.py:2164-2209 | The same from the right |
| Brackets.RunBackOpens | cpplint.py:2164-2209 | The same from the right |

## Left out

- Directory walking, stat, open and read errors, FileDup, fsync and unlink: input and output of the operating system. `Crawler.CrawlFiles` takes the list of files; a failed WriteIndex returns no file.
- The shells (hw2/searchshell.c, hw3/filesearchshell.cc, hw3/buildfileindex.cc) and the HTTP server (hw4/HttpServer.cc, ServerSocket.cc, HttpConnection.cc, HttpUtils.cc, FileReader.cc): loops around library calls; they would add only easier members.
- malloc, free, leaks and the exit after a failed Verify333: the checks are assertions that are proved, or preconditions where they are demands on the caller.
- 32-bit overflow of counts, ranks and `num_buckets * 9`: counts are unbounded; sizes that reach the file are bounded by 2^31.
- Pointers from one table into another: the tables nested in the word index and the position lists are values inside `HashTables.HashTable`, so aliasing between a table and its owner is not modelled. The loop over a nested table in MemIndex_Search runs over its elements in iteration order, which is what `HashTables.VisitAll` proves of the iterator.
- The writer walks a snapshot of each table (`HashTables.HashTable.Snapshot`) instead of iterating over the live chains while it writes.
- The thread pool's constructor polls once a second: that its loop ends needs a fair scheduler. Only its exit condition is modelled, and progress is stated outside of it.
- Tasks are opaque: a task that calls Dispatch is a client thread of its own in the model. No call of Dispatch begins once the destructor has begun, and a failed check, which ends the program, only keeps its thread from going on.
- The table of the CRC is one per object in the model, built by its constructor; the original shares one between objects.
- The readers share the file object here; the original duplicates it, and every read is preceded by a seek in both.
- ro_close writes to a read-only descriptor and is not modelled.
- The rest of cpplint.py: style checks by regular expressions. The two expressions that the matcher uses are predicates over ASCII blanks and word characters.
- exercises ex2, ex3, ex5, ex10, ex11 and hw0: too small or around sockets.
- LinkedLists.LinkedList.Append: models the append that was meant; the original frees the node that it has just linked.
- QueryProcessing.StdSort: the order of results of equal rank is left open, as std::sort leaves it.
- Files.IndexFile.FWrite: every fwrite succeeds except for items of size 0; a full disk is not modelled.

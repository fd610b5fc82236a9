# Verification

A Dafny model of the data structures of a C base library, with proofs that they do what they are for.

The modules follow the library's files. What the source updates in place is a class here, with the source's own
fields, its links and its arrays; the methods have the source's branches in the source's order. Ghost values (a tiling
of pages, a tree, a forest, a ring's history) say what a state of the memory stands for, and the lemmas are about those.

* **Slab allocator** (`dl_shm.c`): the page layer with its tagged back-pointers (`Tiles`, `PageLists`, `PageLayer`),
  the chunk layer with its three encodings of a page (`ChunkLayer`, `SlotSteps`), the two together (`LiveBlocks`,
  `PoolInvariant`), and the pool object (`SlabAllocator`, `PoolRuns`). A page is a cell of three machine words, memory
  an array of 64-bit words, and a block is named by its offset from the first page.
* **Red-black deletion** (`dl_rbtree.c`): `RbShape`, `RbStore`, `RbFocus`, `RbRepair`, `RbRemoval`, `RedBlackTree`. The
  missing black node is a hole in a tree, and every repair case moves the hole up or fills it.
* **JSON** (`json/dl_json.c`): lexer and parser as machines over characters (`JsonLexer`, `JsonParser`), what fragments
  do (`JsonFragments`), what the parser builds (`JsonTrees`), printing and reading back (`JsonPrint`, `JsonShortest`),
  escaping (`JsonEscape`, `JsonEscapeLaws`, `JsonStrings`), and the linked tree that is built, printed and freed
  (`JsonLexing`, `JsonNodes`, `JsonParsing`, `JsonPrinting`, `JsonFreeing`, `JsonDocument`, `JsonEdges`). The language is
  defined apart from the machines: numbers and strings by their grammar (`JsonGrammar`), a document by the tokens of its
  tree (`JsonTokens`) with blanks between them (`JsonLanguage`); what the parser takes is that language, in both
  directions (`JsonAccepted`, `JsonMeaning`), but for what it lets follow (`JsonTrailing`).
* **AVL insertion, search and traversal** (`dl_bstree.c`): `AvlShape`, `AvlStore`, `AvlWalk`, `AvlTrees`.
* **Ring buffer** (`dl_fifo.c`): one producer and one consumer in every interleaving of their single byte copies
  (`FifoRing`, `FifoSteps`), and the object (`FifoQueue`). Counters are 32 bits wide and are read and written one after
  another, in the order of the source.
* **Queue** (`dl_queue.c`): the sorted circular list (`QueueRing`, `QueueSort`, `LinkedQueue`).
* **Pool and array** (`dl_pool.c`, `dl_array.c`): `PoolBlocks`, `PoolArray`. Memory is chunks of bytes, one for each
  request to the system.
* **Codecs** (`dl_string.c`): `Base64`, `UriCodec`; what they write and read in bits and characters (`Base64Laws`,
  `UriLaws`).
* **Sizing of tables** (`dl_table.c`): `TableSizes`, `TableRehash`.

`Arithmetic`, `Words` and `Sequences` hold what several of them need.

## Model

| member | source | states |
|---|---|---|
| `SlabAllocator.SlabPool.constructor` | dl_shm.c:77-173 | whatever the addresses, the page structures of 24 bytes end before the first page, the pages are aligned and end inside the memory, at most one page less than would fit is made, and the new pool is valid with nothing live, every page free and all statistics zero |
| `SlabAllocator.SlabPool.AllocPages` | dl_shm.c:414-489 | refuses exactly when no free run is long enough; otherwise cuts the first run of the free list that is, and keeps tiling, back-pointers, list and page count; no slot list changes |
| `SlabAllocator.SlabPool.FreeRun` | dl_shm.c:717-794 | the freed run is joined with the free runs on both sides, so that no two free runs touch, and `pfree` grows by its pages; the back-pointers and the list follow |
| `SlabAllocator.SlabPool.Alloc` | dl_shm.c:185-411 | refuses exactly when no page of the slot has a free chunk and no page is free, or no free run is long enough; otherwise exactly one new block is live, of the request's slot or page count, the pool stays valid, and no word of any live block changes; a chunk is less than twice the request or has 8 bytes; the request and its failure are counted for its slot; the block is large enough exactly if the pages asked for can be counted in 32 bits |
| `SlabAllocator.SlabPool.AllocChunk` | dl_shm.c:217-408 | the first free chunk of the first page on the slot's list, which always has one; only when the list is empty, the first page of the first free run, and of it the chunk of number 8, 2, 1 or 0 by the slot; a failure is counted exactly if there is neither |
| `SlabAllocator.SlabPool.Release` | dl_shm.c:499-714 | for every offset: a live block is freed and nothing else changes; the pool stays valid exactly if the offset is not one of a bitmap's own chunks; what is refused names no block; no word of any live block changes in any case |
| `SlabAllocator.SlabPool.Store` | dl_shm.c:339-364 | writing any word of a live block leaves the pool valid: neither page links nor bitmaps are kept there |
| `PoolRuns.LiveBlocksSafe` | dl_shm.c:185-411 | in every valid pool live blocks are pairwise disjoint, inside the pool, aligned (chunks to their own size), and each can be given to the free function |
| `PoolRuns.FreeOne` | dl_shm.c:499-714 | freeing a live block by its address alone always succeeds, and takes exactly that block |
| `PoolRuns.FreeAll` | dl_shm.c:717-794 | freeing all live blocks in any order leaves one free run of all pages, the free list with it alone, `pfree` of a new pool, and all counters zero |
| `PoolRuns.NothingLiveIsPristine` | dl_shm.c:717-794 | a pool with nothing live is what it was when made, whatever was done before |
| `PoolInvariant.NothingLiveCounts` | dl_shm.c:695 | with nothing live, `used` and `total` of every slot are zero |
| `PoolInvariant.ListHasRoom` | dl_shm.c:219-326 | a page on a slot's list has a free chunk, so the search of it never falls through |
| `PoolInvariant.EmptyListFull` | dl_shm.c:328-406 | with the slot's list empty, the slot is exhausted exactly if no page is free |
| `PoolInvariant.UnlistedTest` | dl_shm.c:537-598 | the two tests by which freeing finds that a page is on no list, a missing link and a full word, are both exact |
| `PoolInvariant.HarmlessKeepsWords` | dl_shm.c:339-364 | what changes only bitmaps and free pages changes no word of any live block |
| `PoolRuns.Unrecognised` | dl_shm.c:507-567 | in a pool of three pages, freeing the start of a page that holds a bitmap breaks the pool, and freeing the pool's end reads behind the last page structure |
| `LiveBlocks.AddressNamesOne` | dl_shm.c:512-532 | an address names at most one live block, so that freeing needs no size |
| `LiveBlocks.BitmapIsClear` | dl_shm.c:339-364 | no chunk handed out from a small page covers the page's bitmap |
| `LiveBlocks.PagesFit` | dl_shm.c:132-168 | rounding and giving up pages costs at most one page, and structures and pages fit between the two addresses |
| `PageLayer.SplitKeeps` | dl_shm.c:425-463 | a free run longer than the request is split; the words written keep the page layer, rest on the list and back-pointer of its last page included |
| `PageLayer.TakeKeeps` | dl_shm.c:446-478 | the same when the run is taken whole and leaves the list |
| `PageLayer.JoinTest` | dl_shm.c:736-755 | the test applied to the run behind recognises exactly the free runs, and its `slab` word is its length |
| `PageLayer.BackTest` | dl_shm.c:757-781 | the last page before the freed run leads back to its run's first page, and the test recognises exactly the free runs, also for the first run, whose last back-pointer was never written |
| `PageLayer.HoleCloses` | dl_shm.c:783-793 | with no free run beside it, the joined run becomes the first of the free list, and the page layer is whole again |
| `ChunkLayer.OnlyTheBitmap` | dl_shm.c:334-366 | a small page withholds for its bitmap of 8, 4 or 2 words exactly 8, 2 or 1 chunks, and no chunk that the bitmap does not reach into; other pages withhold none |
| `LiveBlocks.CapacityTable` | dl_shm.c:362-405 | a page serves 504, 254, 127, 64, 32, 16, 8, 4 or 2 chunks, by its slot: what `total` grows by |
| `ChunkLayer.FullTest` | dl_shm.c:246-313 | each of the three tests for a full page holds exactly when no chunk is left |
| `ChunkLayer.EmptyTest` | dl_shm.c:549-651 | each of the three tests for an empty page holds exactly when no chunk is handed out, the bitmap's own chunks not counted |
| `ChunkLayer.MarkChunk` | dl_shm.c:233-304 | setting the bit hands out that chunk and no other, in each of the three encodings |
| `ChunkLayer.ClearChunk` | dl_shm.c:547-643 | clearing the bit takes back that chunk and no other |
| `ChunkLayer.ReservedCleared` | dl_shm.c:534-567 | clearing a mark of the bitmap's own chunks is not noticed by the test for an empty page, and afterwards the marks no longer say what is handed out |
| `ChunkLayer.FirstIsFree` | dl_shm.c:229-242 | the first clear bit of the first word that is not full is the page's first free chunk |
| `ChunkLayer.OneSlotServes` | dl_shm.c:207-215 | no two slots serve the same size, so that a chunk's slot is the least that holds the request |
| `ChunkLayer.PageCountCovers` | dl_shm.c:193-202 | the 32-bit page count covers the request exactly if the request is at most 2^44 bytes less one page, and is then the least that does; of 2^44 bytes it is zero |
| `RedBlackTree.RbTree.Delete` | dl_rbtree.c:254-427 | for every valid tree and every node of it, the nodes afterwards are the old ones in order without that node, and the tree is valid exactly if the node was not a root with a single child |
| `RedBlackTree.RbTree.DeleteRepair` | dl_rbtree.c:458-598 | wherever the black node is missing, the repair ends, gives every path the same number of black nodes again, keeps the order, touches only nodes on the path, and takes the stand-in out exactly in the outermost call |
| `RedBlackTree.RbTree.RepairBlack` | dl_rbtree.c:531-597 | cases four to six end the repair: the black count is made up for without going further up |
| `RedBlackTree.RbTree.DelRepairDone` | dl_rbtree.c:429-448 | the stand-in is out of the tree, its only child in its place, linked both ways |
| `RedBlackTree.RbTree.Sibling` | dl_rbtree.c:171-181 | finds the other child of the parent, also when it is the sentinel |
| `RedBlackTree.RbTree.Next` | dl_rbtree.c:130-156 | the node that follows in order, null behind the last |
| `RedBlackTree.RbTree.DeleteSorted` | dl_rbtree.c:254-427 | deletion keeps the keys sorted |
| `RedBlackTree.OneChildRootGone` | dl_rbtree.c:287-302 | after the root of a tree of two nodes is deleted, the new root still has a parent, and the tree is not valid |
| `RbShape.Balanced` | dl_rbtree.c:458-598 | a red-black tree with a black root and n nodes has a height h with 2^(h / 2) at most n + 1 |
| `RbShape.RedBlackPlug` | dl_rbtree.c:458-598 | a tree with a black root is red-black exactly if it is so around a hole and inside it: what lets each repair case be judged where it happens |
| `RbRemoval.RootGone` | dl_rbtree.c:285-302 | what deleting a root with at most one child leaves: everything in order, but the child's parent field as it was |
| `JsonLexing.Lexer.Next` | json/dl_json.c:1372-2132 | the token loop with its growing buffer and in-place state returns what the character machine returns: token, text, position, line count and state to resume in |
| `JsonParsing.ParsingInfo.ParseFragment` | json/dl_json.c:2135-2767 | for every fragment, in every state a parse can be in, the linked tree, states and result afterwards are those of the parser function, nodes are linked both ways, and unless it is refused the parse can go on |
| `JsonParsing.ParsingInfo.InsertChild` | json/dl_json.c:454-533 | a child is accepted exactly if the kinds fit and a scalar has no children of its own; then it is the last child, linked to parent and sibling, and no other node changes; the parent's children are not asked about, nor, against the comment there, whether a label below an object has a value (that labels have one value each is `JsonTrees.Finished`) |
| `JsonGrammar.NumberByGrammar` | json/dl_json.c:1818-2122 | the lexer takes as a number exactly a minus sign or none, a zero or figures that do not begin with one, then a point and figures or nothing, then an exponent with a sign or without, or nothing |
| `JsonGrammar.TextByGrammar` | json/dl_json.c:1475-1673 | the lexer takes between quotes exactly characters from 32 up but quotes and backslashes, the eight short escapes, and escapes of four hexadecimal figures |
| `JsonTokens.TokensTold` | json/dl_json.c:2146-2755 | after any tokens taken, the open nodes and the state tell which tokens they were, but for spare commas |
| `JsonTokens.PruneSame` | json/dl_json.c:2553-2690 | a comma between the last value of an array and its closing bracket changes nothing of what the parser does |
| `JsonLanguage.ReadAll` | json/dl_json.c:1372-2132 | the texts of tokens that the parser takes, with any blanks between them, lead where the tokens lead, if numbers are set off from what is no comma or closing bracket |
| `JsonLanguage.ReadRefused` | json/dl_json.c:2135-2767 | if the parser refuses the tokens, it refuses their text, wherever the blanks are and for the same reason |
| `JsonAccepted.ReadBack` | json/dl_json.c:1372-2132 | whatever text has not been refused so far is such tokens with such blanks, and part of one more |
| `JsonMeaning.Accepted` | json/dl_json.c:2135-2767 | a text is accepted with a tree on a line exactly if it is made of the tree's tokens, blanks between them and spare commas, and the blanks give that line |
| `JsonMeaning.BlanksDoNotMatter` | json/dl_json.c:1388-1400 | for any tokens and any blanks between them, the outcome is that of the tokens alone: the same tree, or the same refusal; only the line depends on the blanks |
| `JsonMeaning.DocumentLine` | json/dl_json.c:1394-1399 | the line on which a document ends is one more than its line ends exactly if none of them is right behind a number |
| `JsonMeaning.LineLost` | json/dl_json.c:1891-1905 | with a line feed right behind a number the document ends on line 1 |
| `JsonTrailing.ContentWith` | json/dl_json.c:2736-2767 | the parser waits for the end of the text exactly behind a document that nothing but blanks follow, and a beginning of a string, number or word, or no such beginning |
| `JsonTrailing.OnlyBlanksFollow` | json/dl_json.c:2736-2755 | only blanks follow exactly if the lexer's state is 0 then |
| `JsonTrailing.TrailingQuote` | json/dl_json.c:2736-2755 | an empty object with a quote and a letter behind it is not refused, and is no document |
| `JsonTrailing.StrictlyTokens` | json/dl_json.c:2553-2690 | the tokens of a document are exactly those of its tree if and only if no comma stands right before the closing bracket of an array |
| `JsonTrailing.StrangeCharacter` | json/dl_json.c:2349-2351 | a character that begins no token is refused as illegal exactly behind a comma, a colon or the opening bracket of an array, and elsewhere as malformed |
| `JsonEdges.SecondValue` | json/dl_json.c:465-487 | a label that has a value takes a second one |
| `JsonFragments.Fragmentation` | json/dl_json.c:2135-2767 | for every cutting of every input, state, lexer, line count, tree and first error equal those of the whole text, unless the first fragment that is not empty is blank; then it is refused |
| `JsonFragments.FragmentationExact` | json/dl_json.c:2143-2165 | for an input not malformed as a whole, that condition is exact |
| `JsonFragments.EveryCut` | json/dl_json.c:2143-2165 | such an input survives all its cuttings exactly if it does not begin with a blank |
| `JsonFragments.CutsDoNotMatter` | json/dl_json.c:1380-1384 | once the document has begun, a cut anywhere, inside an escape or a number too, changes nothing |
| `JsonFragments.BlankLineFirst` | json/dl_json.c:2143-2165 | a line feed and then a brace are refused as two fragments and accepted as one |
| `JsonTrees.Finished` | json/dl_json.c:2146-2755 | on every input no internal check fails, and at the end the document is an object in which every label, at any depth, has exactly one value, and every text and number is one the lexer accepts |
| `JsonTrees.StepsKept` | json/dl_json.c:2146-2755 | after every prefix of every input the cursor's kind fits the state, and the open containers are well-formed |
| `JsonPrint.RoundTrip` | json/dl_json.c:2135-2767 | for every well-formed document, parsing its printed form accepts all of it and gives the same document |
| `JsonPrint.PrintedParses` | json/dl_json.c:2135-2767 | whatever text was accepted, the document's printed form is accepted too and gives the same document |
| `JsonShortest.Shortest` | json/dl_json.c:570-796 | what is printed is the tree's tokens with nothing between them, and no text that is the same document is shorter |
| `JsonPrinting.TreeToString` | json/dl_json.c:570-796 | the walk over child, sibling and parent links ends, and returns the document's printed form, exactly if every label has a value |
| `JsonDocument.PrintParsed` | json/dl_json.c:570-796 | a tree the parser has built is always printed, and parsing the text gives the same tree |
| `JsonFreeing.FreeValue` | json/dl_json.c:359-451 | for a pointer in a variable or in any link that leads to the value: the nodes below it are freed in post-order and the value last; what is left has exactly the links it had, but for the pointer itself, set to null first, and the value's siblings and parent, joined around it; the loop goes on outside the tree exactly if unlinking sets the pointer again |
| `JsonFreeing.WhereThePointerIs` | json/dl_json.c:366-443 | freeing by a link that leads to the value ends, and leaves what freeing by a variable leaves, exactly if that link leads nowhere once the value is unlinked |
| `JsonEdges.FirstChildFreed` | json/dl_json.c:384-443 | freeing the first of two children by the parent's own pointer takes the other one off the parent's list |
| `JsonFreeing.SiblingsStay` | json/dl_json.c:366-412 | after a child is unlinked, its parent's list is the other children in order, linked both ways |
| `JsonDocument.FreeParsed` | json/dl_json.c:359-451 | a parsed document is freed completely: the nodes freed are all its nodes |
| `JsonDocument.FreedOnce` | json/dl_json.c:359-451 | no node is freed twice |
| `JsonEscape.EscapedIsToken` | json/dl_json.c:1475-1673 | for every text in either style, the lexer reads the escaped text between quotes as one string token with that text |
| `JsonEscape.UnescapeEscape` | json/dl_json.c:1202-1355 | unescaping undoes escaping, for every text, in either style |
| `JsonEscape.TextUnescapable` | json/dl_json.c:1202-1355 | of the string texts the lexer accepts, exactly those that do not end right after a high surrogate are read to their end and no further |
| `JsonEscape.EndsHighAt` | json/dl_json.c:1289-1302 | the last six characters of such a text are the escape of a high surrogate |
| `JsonEscape.LoneHigh` | json/dl_json.c:1289-1302 | the escape of a single high surrogate is such a text, and the lexer accepts it |
| `JsonEscape.PairMeans` | json/dl_json.c:1290-1334 | a surrogate pair becomes the UTF-8 of 0x10000, the first number less 0xD800 times 1024, and the second less 0xDC00 |
| `JsonEscape.Utf8Means` | json/dl_json.c:1245-1287 | read by the rules of UTF-8 the bytes written for a character give its number, in the shortest form |
| `JsonEscapeLaws.NumberRead` | json/dl_json.c:1228-1287 | the escape of any number below 0x10000 but a high surrogate, in small or capital figures, becomes the UTF-8 of that number, and the rest is what the rest becomes |
| `JsonEscapeLaws.PairRead` | json/dl_json.c:1290-1334 | for every character from 0x10000 to 0x10FFFF, the escapes of 0xD800 and the quotient, and of 0xDC00 and the remainder, of what it exceeds 0x10000 by, divided by 1024, become its UTF-8 |
| `JsonEscapeLaws.HighRead` | json/dl_json.c:1290-1334 | two escapes of which the first is a high surrogate become four bytes for the number they make, also if the second is no low surrogate |
| `JsonEscapeLaws.UnpairedRead` | json/dl_json.c:1299-1306 | a high surrogate that no other number follows becomes nothing, and takes the character or escape there with it |
| `JsonEscapeLaws.LetterRead` | json/dl_json.c:1213-1236 | the eight short escapes by their letters and the numbers of their characters; any other character stands for itself |
| `JsonEscapeLaws.EscapedText` | json/dl_json.c:1137-1199 | what each character is replaced by, written out: slashes only by json_escape, figures small there and capital in dl_escape_json |
| `JsonStrings.JsonEscapeText` | json/dl_json.c:1136-1200 | the loop over the growing buffer computes the escaped text, slashes escaped too |
| `JsonStrings.JsonUnescapeText` | json/dl_json.c:1202-1355 | for every text the lexer accepts, the in-place writer never outgrows its buffer and computes what the text becomes, ended by a NUL, what follows a lone high surrogate skipped; it reads beyond the text exactly if that ends after a high surrogate |
| `JsonStrings.EscapeGrowth` | dl_string.c:1389-1424 | the pass without a destination returns the growth modulo 2^32; the room it predicts is enough exactly if the text grows by less than 2^32 |
| `JsonStrings.GrowthWraps` | dl_string.c:1389-1424 | 858993460 control characters grow by more than the 4 predicted |
| `JsonStrings.EscapeInto` | dl_string.c:1426-1474 | with enough room, the second pass writes exactly the escaped text |
| `JsonStrings.RcString.CatCs` | json/dl_json.c:102-136 | the buffer's contents grow by exactly the characters added, however often it is enlarged |
| `AvlTrees.AvlTree.Insert` | dl_bstree.c:267-321 | an absent key: order, exact stored heights, balance, parent links and the old nodes are kept, and the new node is in its place; a key that is there: null is returned, and the tree is what the stored null leaves of it |
| `AvlTrees.AvlTree.InsertRepair` | dl_bstree.c:234-265 | the single and double rotations make the stored shape the repaired one, with all parent links but the topmost, which the caller restores |
| `AvlTrees.AvlTree.FindByKey` | dl_bstree.c:28-45 | finds the node exactly if the key is in the tree |
| `AvlTrees.AvlTree.Next` | dl_bstree.c:323-343 | the node with the next larger key, null behind the last |
| `AvlTrees.AvlTree.Min` | dl_bstree.h:34-43 | the node with the smallest key |
| `AvlTrees.DuplicateLoses` | dl_bstree.c:275-292 | inserting a key a second time into a tree of two nodes loses one of them |
| `AvlShape.InsertInorder` | dl_bstree.c:267-295 | insertion adds exactly the new node, at its place in the order, through all rotations |
| `AvlShape.InsertOrdered` | dl_bstree.c:267-295 | insertion keeps the strict order of the keys |
| `AvlShape.EnoughNodes` | dl_bstree.c:234-265 | a balanced tree of height h has at least Fib(h + 2) - 1 nodes |
| `AvlShape.BrokenLoses` | dl_bstree.c:275-292 | a duplicate insertion keeps all nodes exactly if the key is the root's |
| `FifoSteps.Safe` | dl_fifo.c:46-130 | in every interleaving what was taken is a prefix of what was sent, the wrapped difference of the counters is the number of unread elements and at most the capacity, and no unread byte is overwritten |
| `FifoSteps.NoRace` | dl_fifo.c:46-111 | in every interleaving, while both sides copy, they never touch the same place |
| `FifoSteps.ReadsInside` | dl_fifo.c:91-111 | all reads of all runs are inside the buffer exactly if (capacity - 1) * esize is below 2^31 |
| `FifoSteps.WideRingStrays` | dl_fifo.c:91-111 | with four elements of 805306368 bytes there is a run that reads before the buffer |
| `FifoSteps.StepKept` | dl_fifo.c:46-130 | every single step of either side keeps the invariant, across counter wrap and the copy in two parts |
| `FifoQueue.Fifo.Init` | dl_fifo.c:11-44 | the capacity is the least power of two that is not smaller than the size; only for a single element is there no ring |
| `FifoQueue.RoundUp` | dl_fifo.c:23-30 | the rounding by the byte-wise logarithm gives the least such power |
| `FifoQueue.Log2` | dl_table.c:35-55 | the table-driven loop computes the logarithm rounded down, and -1 for zero |
| `FifoQueue.Fifo.In` | dl_fifo.c:75-86 | as many elements as there is room for, in full, are added behind the contents |
| `FifoQueue.Fifo.Out` | dl_fifo.c:125-130 | the elements taken are the first of the contents, and leave; the read is inside exactly if the offset is below 2^31 or nothing is asked for |
| `FifoQueue.Fifo.OutPeek` | dl_fifo.c:113-123 | the same elements are delivered, and stay |
| `FifoQueue.Fifo.Unused` | dl_fifo.c:70-73 | the wrapped difference is the true number of free elements |
| `LinkedQueue.Queue.SortQueue` | dl_queue.c:42-72 | relinking in place gives the circular list of a stable, sorted permutation, for every total preorder; for any other comparison it still ends, with a permutation |
| `LinkedQueue.Queue.Middle` | dl_queue.c:8-39 | the element number n / 2, counted from zero; the head of an empty queue |
| `LinkedQueue.Queue.Remove` | dl_queue.h:51-53 | the circular list without that element, linked both ways |
| `LinkedQueue.Queue.InsertAfter` | dl_queue.h:21-27 | the circular list with the element at that place |
| `QueueSort.SortSorted` | dl_queue.c:42-72 | the result is sorted, for every total preorder |
| `QueueSort.SortStable` | dl_queue.c:42-72 | an element that came before another, and is not behind it in the order, still does |
| `QueueSort.SortMembers` | dl_queue.c:42-72 | the result is a permutation, for any comparison |
| `PoolBlocks.Pool.Palloc` | dl_pool.c:69-77 | with blocks of any size: the region is new, inside its chunk, aligned, and shares no byte with any live one, and all bytes stay, unless the piece or its list cell overruns its block; when it does is exact, and never if blocks have at least 88 bytes and end aligned |
| `PoolBlocks.Pool.Pnalloc` | dl_pool.c:79-87 | the same, not aligned |
| `PoolBlocks.Pool.PallocSmall` | dl_pool.c:142-168 | the piece is in the first block, from the current one on, in which the unsigned test finds room, or in a new one; it is inside, and the pool stays valid, exactly if it does not begin behind that block's end, or a new block is large enough; then one region is added to the live ones, clear of headers and free parts |
| `PoolBlocks.Pool.PallocBlock` | dl_pool.c:171-210 | exactly one block is added at the end, the piece directly behind its header of 72 bytes, inside exactly if the block is large enough; failures are counted |
| `PoolBlocks.Pool.CountFailures` | dl_pool.c:200-206 | every block from the current one on but the last has one failure more, and searches begin behind the last of them that had at least five before, which is the sixth failure and not, as the comment has it, the fifth |
| `PoolBlocks.Pool.PallocLarge` | dl_pool.c:102-140 | the region is a chunk of its own; the pool stays valid exactly if the list cell is inside its block |
| `PoolBlocks.Pool.Serve` | dl_pool.c:69-210 | in a pool whose blocks have at least 88 bytes and end aligned, every run of requests keeps all pieces inside their blocks |
| `PoolBlocks.Overrun` | dl_pool.c:142-168 | in a pool with blocks of any other size there is a run of requests after which a piece is not inside its block |
| `PoolBlocks.UnalignedBlockOverruns` | dl_pool.c:150-161 | in a pool with blocks of 100 bytes, a piece of 28 bytes and then an aligned one of 8 overrun the first block |
| `PoolBlocks.SmallBlocksOverrun` | dl_pool.c:128-137 | in a pool with blocks of 80 bytes, one large piece makes its list cell overrun a new block |
| `PoolArray.Array.Push` | dl_array.c:55-110 | unless the pool overruns, which it does not with proper blocks: the element's address is behind the others, which keep their bytes whether the array grew in place or moved; nothing else that is live loses a byte or shares one with the array; with no room left the array grows by one element in place, or is twice as large elsewhere |
| `PoolArray.Array.PushN` | dl_array.c:113-160 | the same for several elements; where it moves it is made twice as large as before, or as what is asked for |
| `PoolArray.Array.GrowInPlace` | dl_array.c:69-84 | taking bytes straight from the block's free part runs into no other live region |
| `PoolArray.Array.MoveTo` | dl_array.c:86-100 | unless the pool overruns, the copy has the same elements, and nothing else changes |
| `Base64.RoundTrip` | dl_string.c:734-912 | decoding undoes encoding for all bytes, with either alphabet, padded or not; padded text comes in groups of four |
| `Base64.EncodeDecoded` | dl_string.c:860-912 | encoding undoes decoding exactly if the bits that decoding drops are zero |
| `Base64.EncodeInternal` | dl_string.c:756-799 | the loop over three bytes, and the rest, compute the encoding |
| `Base64.DecodeInternal` | dl_string.c:860-912 | the scan and the loop over four characters compute the decoding, its refusals included |
| `Base64Laws.EncodedText` | dl_string.c:734-799 | character i is the alphabet's entry for bits 6 i to 6 i + 5 of the bytes, most significant first; there are as many as it takes, and padding makes them a multiple of four with equal signs |
| `Base64Laws.DecodedText` | dl_string.c:860-912 | characters of the alphabet, up to an equal sign or the end, give six bits each, of which all whole bytes are written; one character more than groups of four is refused |
| `Base64Laws.StrangeCharacter` | dl_string.c:867-876 | the first character that is neither in the alphabet nor an equal sign decides: below 128 it is refused |
| `Base64.OffTableExactly` | dl_string.c:867-876 | with signed characters the scan leaves the table exactly if a byte from 128 up comes before the first pad character and the first illegal one |
| `UriCodec.RoundTrip` | dl_string.c:1028-1308 | for every text, every kind of escape and all flags, unescaping gives what is meant: the text itself without flags, up to the first question mark with them, with what stays escaped under the second |
| `UriLaws.EscapedBytes` | dl_string.c:1038-1112 | which bytes the four tables escape, in characters: all from 0 to 31 and from 127 up, space and percent, and the others of each kind; for components all but letters, figures, hyphen, point, underscore and tilde |
| `UriLaws.EscapedText` | dl_string.c:1156-1169 | each of these bytes becomes a percent sign and its two figures in capitals, and the others stay |
| `UriLaws.PairRead` | dl_string.c:1218-1300 | for all two hexadecimal figures, small or capital, behind a percent sign: the byte they make, with the cases of each flag |
| `UriLaws.LoosePercent` | dl_string.c:1218-1300 | what a percent sign becomes that no figure follows, or only one, or nothing |
| `UriLaws.PlainRead` | dl_string.c:1201-1216 | any other byte stays, and a question mark ends the text with a flag |
| `UriCodec.EscapeUri` | dl_string.c:1156-1169 | in a destination of the size counted, the text is written escaped |
| `UriCodec.CountEscapes` | dl_string.c:1138-1154 | the pass without a destination counts exactly what the size must grow by, in units of two |
| `UriCodec.UnescapeUri` | dl_string.c:1178-1308 | the byte machine with its three states writes what the function says, and stops where it does; the output never outgrows the input |
| `TableSizes.ComputeSizes` | dl_table.c:668-688 | for every histogram with its sum: the last slice that has keys and is worth it decides, and the array is never indexed past its end; the keys counted fit exactly if the histogram is not crowded, and the size is the largest that is worth it exactly if they fit or it is the largest there is |
| `TableSizes.BestForKeys` | dl_table.c:668-688 | for every set of numbers, each counted once, the best size is the largest power of two of which more than half are in the set |
| `TableSizes.DistinctNotCrowded` | dl_table.c:668-688 | a histogram of numbers each counted once is never crowded |
| `TableSizes.TwoInSliceZero` | dl_table.c:668-688 | with two keys in slice 0, size 1 is chosen for both, although size 2 is worth it |
| `TableRehash.CountSlots` | dl_table.c:690-711 | the nested loops add to each slice the used slots, counted one too high, and return their number |
| `TableRehash.CountKey` | dl_table.c:714-726 | an integer key from 1 to 2^26 is counted, in the slice its logarithm says |
| `TableRehash.Rehash` | dl_table.c:877-903 | for every table and new key: the histogram is that of slots and keys, crowded only if the last slot and a key share a number, and otherwise the array is the largest power of two that is more than half full; all keys have a place exactly if the size chosen is not itself a key of the node part, or key 0 is one too, or rounding the node count up leaves one over |
| `TableRehash.NodesNeeded` | dl_table.c:896-900 | the nodes asked for are as many as the keys outside the array, less one if the size chosen is a key, and one more if 0 is |
| `TableRehash.FirstKeyStuck` | dl_table.c:617-630 | the first key of an empty table is 1: after sizing it has no place, and sizing again gives the same table |
| `TableRehash.SharedNumber` | dl_table.c:690-711 | with key 0 in the only slot and a new key 1, both are counted as 1, and the new key has no place |

## Findings

Where the code does not do what it is for, the model does what the code does. Each has a failing input and the exact
condition under which the code is right.

| what goes wrong | source | failing input | exactly when it does not |
|---|---|---|---|
| the consumer's offset is a signed number, and a copy from 2^31 on reads before the buffer | dl_fifo.c:91-107 | `FifoSteps.WideRingStrays` | (capacity - 1) * esize < 2^31: `FifoSteps.ReadsInside`; for one copy, the offset is below 2^31: `FifoQueue.Fifo.Out` |
| the growth of escaped text is counted in 32 bits | dl_string.c:1389-1424 | `JsonStrings.GrowthWraps` | the text grows by less than 2^32: `JsonStrings.EscapeGrowth` |
| the child of a deleted root keeps its parent | dl_rbtree.c:287-302 | `RedBlackTree.OneChildRootGone` | the node is not a root with a single child: `RedBlackTree.RbTree.Delete` |
| inserting a key that is there stores null over a child of the root | dl_bstree.c:275-292 | `AvlTrees.DuplicateLoses` | the key is absent, or the root's: `AvlTrees.AvlTree.Insert`, `AvlShape.BrokenLoses` |
| a document whose first fragment is blank is refused | json/dl_json.c:2143-2165 | `JsonFragments.BlankLineFirst` | the first fragment that is not empty is not blank: `JsonFragments.FragmentationExact`, `JsonFragments.EveryCut` |
| freeing an offset inside a bitmap clears its mark | dl_shm.c:534-567 | `PoolRuns.Unrecognised` | the offset is not the start of one of the bitmap's chunks: `SlabAllocator.SlabPool.Release` |
| freeing an offset behind the last page reads a structure that is not there | dl_shm.c:507-515 | `PoolRuns.Unrecognised` | the offset is below the last page's end or behind the pool's: `SlabAllocator.SlabPool.Release` |
| a request for 2^44 bytes asks for no pages | dl_shm.c:193-202 | `ChunkLayer.PageCountCovers` | the request is at most 2^44 bytes less one page: `ChunkLayer.PageCountCovers` |
| in a pool whose blocks do not end aligned, an aligned piece may start behind the end and is said to fit | dl_pool.c:150-161 | `PoolBlocks.UnalignedBlockOverruns`, and for every such size `PoolBlocks.Overrun` | in every run, exactly if the block size is a multiple of 8 and at least 88: `PoolBlocks.Pool.Serve`, `PoolBlocks.Overrun`; for one request: `PoolBlocks.Pool.Palloc` |
| in a pool of small blocks the cell for a large piece is put behind the block's end | dl_pool.c:128-137 | `PoolBlocks.SmallBlocksOverrun` | the same; for one request: `PoolBlocks.Pool.PallocLarge` |
| a used last slot and a key of the node part are counted as the same number, so that too many keys are counted for the array | dl_table.c:690-711 | `TableRehash.SharedNumber`; for the loop alone `TableSizes.TwoInSliceZero` | no such number is shared, or a later slice decides: the histogram is not crowded, `TableSizes.ComputeSizes`, `TableRehash.Rehash` |
| a key equal to the new array size is counted as inside the array, which ends before it; when no node is left over it has no place, and in the failing input sizing the table again changes nothing | dl_table.c:877-903 | `TableRehash.FirstKeyStuck` | the size chosen is not a key of the node part, or 0 is one too, or the node count is rounded up: `TableRehash.Rehash` |
| a line end right behind a number is not counted as a line | json/dl_json.c:1891-1905 | `JsonMeaning.LineLost` | no line end is right behind a number: `JsonMeaning.DocumentLine` |
| behind the document not only blanks are let pass, but the beginning of any string, number or word | json/dl_json.c:2736-2755 | `JsonTrailing.TrailingQuote` | the lexer's state is 0 at the end: `JsonTrailing.OnlyBlanksFollow`; for the text: `JsonTrailing.ContentWith` |
| an array may end with a comma, which no JSON document has | json/dl_json.c:2553-2690 | `JsonMeaning.LineLost` | no comma stands right before the closing bracket of an array: `JsonTrailing.StrictlyTokens` |
| freeing a value by its parent's own pointer to it loses its siblings | json/dl_json.c:384-443 | `JsonEdges.FirstChildFreed` | the pointer leads nowhere once the value is unlinked: `JsonFreeing.WhereThePointerIs` |
| unescaping text that ends after a high surrogate reads beyond the text | json/dl_json.c:1299-1302 | `JsonEscape.LoneHigh` | the text, read character by character, does not end there: `JsonStrings.JsonUnescapeText`, `JsonEscape.TextUnescapable` |
| with characters that are signed, decoding reads before the table for a byte from 128 up | dl_string.c:867-876 | `Base64.HighByteOffTable` | no byte from 128 up comes before the first pad character and the first illegal one: `Base64.OffTableExactly` |

## Left out

- `SlabAllocator.SlabPool.constructor`: only pools with at least one page and fewer than 2^31 of them; for others the code's int and unsigned arithmetic on the page count is not modelled.
- `SlabAllocator.SlabPool.Alloc`: requests whose 32-bit page count is zero (`ChunkLayer.PageCountCovers`), for which the page layer would write to 2^32 pages.
- `SlabAllocator.SlabPool.Release`: for an offset behind the last page it says that the structure behind the last one would be read, not what the code does then; after a bitmap's mark was cleared it says that the pool is not valid, not what later calls do.
- `FifoQueue.Fifo.Init`: size 0 and sizes above 2^30, for which an int is shifted too far, and rings whose length in bytes does not fit into 32 bits, are not modelled.
- `FifoSteps.Safe`: a consumer that has read before the buffer takes nothing more; what it would have copied is not modelled.
- `RedBlackTree.RbTree.Delete`: what later operations do to a tree whose root kept a parent is not modelled.
- `AvlTrees.AvlTree.Insert`: heights are unbounded; the source's have 64 bits (dl_bstree.h:22), which no tree in memory exceeds.
- `JsonStrings.JsonUnescapeText`: only texts the lexer accepts; others run into the source's own assertion, or are not modelled.
- `JsonFreeing.FreeValue`: memory is not given back; freed nodes are the ones the final links are no longer about. Where the loop goes on outside the tree, what it does there is not modelled.
- `PoolBlocks.Pool.constructor`: only blocks that hold at least their header; memory always comes aligned and never runs out.
- `PoolBlocks.Pool.Palloc`: after an overrun the pool is not valid, and what later calls do is not modelled.
- `PoolBlocks.Pool.PallocLarge`: the contents of list cells, and the reuse of a cell whose piece was given back, which nothing in the modelled functions does.
- `PoolArray.Array.constructor`: arrays with room for no element, or elements of no size; element counts and byte products are unbounded, where the source has int counts and size_t products.
- `TableSizes.ComputeSizes`: counts are unbounded; a table of at most 2^26 slots and 2^26 nodes keeps them below 2^31.
- `TableRehash.Rehash`: array parts of more than 2^26 slots; where in the node part a key is put, and putting the keys back after sizing.
- `Base64.DecodeInternal`: characters are signed, as on the usual platforms; with unsigned ones a byte from 128 up is refused.
- Red-black insertion (dl_rbtree.c:21-128), of which one of the mirrored cases rotates the wrong node (dl_rbtree.c:107).
- AVL deletion (dl_bstree.c:47-190), whose balance tests subtract unsigned heights.
- The JSON parser for single characters (json/dl_json.c:2805-4194), formatting and stripping of blanks (json/dl_json.c:981-1130).
- C strings end at the first NUL; here texts have a length, and the JSON functions are given the characters before it.
- Hash tables but for counting and sizing, string keys, perfect hashes.
- The escape for refreshing pages (dl_string.c:1115-1131), which leaves percent signs alone, so that nothing undoes it; HTML escapes; UTF-8 length.
- Logging, time, memory mapping, regular expressions, encryption, formatted output, dumps.
- Failing memory requests; pool reset, cleanup and destruction; `dl_array_destroy`.
- The slab allocator's page size is 4096, words have 64 bits, and the pool is initialised once in a process.
- A comparison given to the queue sort is a function of its two elements, and changes nothing.
- Weak memory: the ring's bytes and counters are read and written in program order, which is what its barriers ask for.

# Verified models of xlibc's core components

xlibc is a collection of small C components. The modules here model six of them in Dafny, at the
level of their fields, arrays, pointers and loops where the C code changes things in place, and prove
what each is for:

- **SHA-1, HMAC and the PRF of IEEE 802.11** (`src/xsha1.c`). `Sha1Spec` is the algorithm of RFC 3174 and RFC
  2104 as those documents write it. `Sha1` has the macros with rotated register roles over a circular schedule
  of sixteen words, and the context with its split bit count and its buffer; it refines the specification for
  every way of cutting a message into updates. `Hmac` does the same for keys and pieces, and `Sha1Stream` for
  reading a file. `Sha1Vectors` checks the specification's constants, schedule and rounds on the RFC's example.
- **Base64** (`src/base64.c`). The encoder and the four-state decoder in place over a target, against section
  4 of RFC 4648; the decoder accepts exactly the canonical texts, white space apart.
- **Containers**. `Heap` is the binary heap of `src/xheap.c`, `Hash` the chained table of `src/xhash.c`, and
  `Tracker` the allocation tracker of `src/xtrace2.c` on top of it.
- **The queue** (`src/xqueue.c`, `include/xlist.h`, `src/xlist.c`). `Ring` has the linked lists, also those of
  `src/eloop/list.h`, as rings of heap objects; `Queue` is the protocol of any number of producers and
  consumers, one shared access a step, with the unlocked capacity test.
- **The event loop** (`src/eloop/`). `Timers`, with `TimerLists` for its list on the pointers of `Ring`,
  `Sockets` and `Signals`. Each has the C functions as methods of a class, or as the steps of a state machine
  where handlers or signals may come between, and theorems about every run.
- **cJSON** (`src/cJSON.c`). `JsonStrings`, `JsonNumbers` and `Json` specify the parser on suffixes of its
  text and show that it reads the grammar of RFC 8259; `JsonAccepts` says exactly what it
  accepts, which is little more. `JsonPrint` specifies the printer, `JsonMinify` the minifier.
  `JsonStringCode`, `JsonPrintCode` and `JsonMinifyCode` are the C functions over character arrays.
  `TreeShapes`, `TreeForest`, `TreeLinks`, `TreeItems`, `TreeCopy`, `TreeGrowth`, `TreeBuild` and
  `TreeReferences` are items in memory, and `TreePrint` prints them: cells with `next`, `prev` and `child`
  pointers, of which a *shape* tells who owns what, so that every allocation has one owner and deletion frees
  it once.

`Wrappers` has the option type and fresh addresses. `dfyconfig.toml` names all the files.

## How to read the models

A C string is the sequence of its characters without the NUL, which reading at its end yields. Widths
are written out where they matter (SHA-1's 32-bit counts, `bv8` and `bv32` for bit operations, the tracker's
unsigned key). Memory in the cJSON modules is a map from addresses to cells, so that freeing, sharing and
dangling can be said; `Store.forest` is the ghost list of trees that the program holds, and `Store.Valid()`
says that the trees own exactly the live allocations. `Table.Map()`, `Tracker.ledger`, `Heap.Elements()` and
`Context.message` are the abstract values of the other classes. The clock, `epoll`, `malloc`'s choice of an
address, file reads and the interleaving are parameters or steps over which the theorems quantify.

## Findings

These are places where the promised behaviour fails. The model keeps what the code does; the named members say
exactly when it differs.

- `parse_string` reads a second `\u` escape after a first surrogate half and throws it away when it is not a
  second half: `"\ud800\u0041"` loses its letter. What is stored is the literal's meaning if and only if no
  escape that contributes is swallowed (`JsonStrings.DecodeIsMeaning`, `JsonStrings.LetterLost`).
- `cJSON_Minify` looks for the end of a block comment from its opening slash on, so a comment that begins with
  a slash, `/*/`, ends at once and its text is kept (`JsonMinify.BlockEnds`, `JsonMinify.CommentReadAsText`).
  Such a comment disappears all the same if and only if its rest is white space, line comments and at its end
  another block comment (`JsonMinify.GoneExactly`; for whole gaps `JsonMinify.CommentedExactly`).
- Changing a list through a reference item works for all children but the first, and for adding to a list that
  is not empty. The first child is handed out, or freed, while the list still begins with it; and what is
  added to an empty list is reached from the reference only, so nothing ever frees it
  (`TreeReferences.DetachThroughReference`, `DeleteThroughReference`, `ReplaceThroughReference`,
  `AddThroughReference`).
- `cJSON_ReplaceItemInObject` overwrites the name that the new item had; that string is never freed
  (`TreeItems.Store.ReplaceItemInObject`, where it goes to `lost`).
- Deplete and replenish compare a request whose microseconds are not carried into seconds. A replenish leaves
  alone only timers with enough time if and only if the request has at most a million microseconds
  (`Timers.ReplenishExactly`). A deplete replaces only timers with more than the request left if and only if
  it has less than a million (`Timers.DepleteExactly`); else it may make a timer later
  (`Timers.DepleteLengthens`), though never later than the request (`Timers.DepletedEnough`).
- When the new deadline of a deplete or replenish overflows, the timer is cancelled and none takes its place
  (`Timers.AdjustedResult`).
- Depleting or replenishing with ELOOP_ALL_CTX cancels by wild card what it looked up exactly
  (`Timers.OthersKept`).
- `fd_table` grows by one step, so that a descriptor beyond it is written out of bounds
  (`Sockets.ReachExactly`); and a second registration of a watched descriptor fails but leaves its entry
  (`Sockets.SecondRegistration`). A registration keeps index and tables in agreement if and only if the
  descriptor is not registered, in reach and not refused (`Sockets.IndexKeptExactly`).
- The 32-bit test of `SHA1Update` protects the buffer if and only if its sum does not wrap
  (`Sha1.WrapDefeatsTheTest`).
- The queue's unlocked test lets the queue grow past its limit, by at most one node for each further producer,
  and that many can occur (`Queue.CapacityBound`, `Queue.CapacityAttained`).

## Model

| member | source | states |
|---|---|---|
| Sha1Spec.PadZerosReaches56 | src/xsha1.c:250-252 | The specification's number of zero bytes brings a message of any length to 56 modulo 64, where the length field begins |
| Sha1Spec.PadZerosIsLeast | src/xsha1.c:250-252 | No smaller number of zero bytes does, so a loop that stops at the first such place has padded as section 4 of RFC 3174 does |
| Sha1Spec.PadFillsBlocks | src/xsha1.c:239-266 | Every padded message is a whole number of 64-byte blocks |
| Sha1Spec.AbsorbConcat | src/xsha1.c:217-236 | Absorbing a concatenation that is cut between blocks is absorbing its parts in turn |
| Sha1Spec.AbsorbTail | src/xsha1.c:217-236 | The bytes of an unfinished block have no effect on the chaining value |
| Sha1.EndianSafeLoads | src/xsha1.c:140-152 | On either kind of machine blk0 yields the big-endian word that RFC 3174 reads from the block |
| Sha1.SelectIsCh | src/xsha1.c:122-127 | The macros' cheaper expression for the first twenty rounds is the choice function of RFC 3174, for all words |
| Sha1.MostIsMaj | src/xsha1.c:130-132 | The macro's expression for rounds 40 to 59 is the majority function, for all words |
| Sha1.MixIsF | src/xsha1.c:121-135 | In each of the eighty rounds the macro in force computes the RFC's function for that round |
| Sha1.Slots | src/xsha1.c:118-119 | The four operands of blk(i), taken modulo 16, lie where the words i-3, i-8, i-14 and i-16 of the eighty-word schedule are kept |
| Sha1.CircularStep | src/xsha1.c:118-119 | Overwriting slot i modulo 16 keeps the sixteen-word array equal to the last sixteen words of the schedule |
| Sha1.Expand | src/xsha1.c:116-119 | blk0 and blk yield word i of the eighty-word schedule and leave the circular array ready for the next round |
| Sha1.RoundInPlace | src/xsha1.c:121-135 | What a macro assigns to two of its five variables are, in rotated roles, all five registers of the RFC's next round |
| Sha1.R | src/xsha1.c:121-135 | One use of R0 to R4: registers of round i+1 and the schedule of round i+1, whatever variables it was given |
| Sha1.AllRounds | src/xsha1.c:172-192 | The eighty macro uses take the five registers to those after round 80 of RFC 3174 |
| Sha1Vectors.RoundConstants | src/xsha1.c:121-135 | The constants of the four kinds of rounds are the square roots of 2, 3, 5 and 10 to thirty fractional bits, each in its range of rounds |
| Sha1.Transform | src/xsha1.c:154-202 | SHA1Transform replaces the state by the RFC's compression of the state and the block, on either kind of machine |
| Sha1.CountAdds | src/xsha1.c:223-225 | The carry test and the shift add eight times the length to the 64-bit count kept in two halves, for every count and every length below 2^32 |
| Sha1.WrapDefeatsTheTest | src/xsha1.c:226-235 | The 32-bit test before the copy protects the 64-byte buffer if and only if j + len does not wrap |
| Sha1.NoWrap | src/xsha1.c:229-231 | At block boundaries the 32-bit loop test never wraps when the first test did not |
| Sha1.AbsorbFilled | src/xsha1.c:227-228 | Completing the buffered bytes absorbs exactly one more block of the message |
| Sha1.StillUnfilled | src/xsha1.c:234-235 | Bytes that leave the buffer unfilled change neither the chaining value nor where the last boundary is |
| Sha1.Context.constructor | src/xsha1.c:205-214 | The context stands for the empty message |
| Sha1.Context.AddToCount | src/xsha1.c:223-225 | The two halves of the count are those of the bit length of the longer message |
| Sha1.Context.AbsorbWhole | src/xsha1.c:229-231 | The loop absorbs all whole blocks from the given place on and stops less than a block before the end |
| Sha1.Context.FillAndAbsorb | src/xsha1.c:226-235 | The branch that fills the buffer leaves the chaining value of the whole longer message and says where its last boundary is |
| Sha1.Context.KeepUnfilled | src/xsha1.c:234-235 | The branch that does not fill it leaves buffer and chaining value as the longer message needs them |
| Sha1.Context.Update | src/xsha1.c:217-236 | The context stands for the message followed by the data: count, buffer and chaining value, for every split |
| Sha1.Context.PadTo448 | src/xsha1.c:249-252 | The padding loop ends, and appends exactly the zero bytes of section 4 of RFC 3174 |
| Sha1.Context.Final | src/xsha1.c:239-266 | The digest is the RFC's digest of everything given to Update, however it was split; the context is wiped |
| Sha1Vectors.DigestOfAbc | src/xsha1.c:116-266 | The digest of "abc" is the one in section 7.3 of RFC 3174, through padding, schedule, all eighty rounds and output |
| Hmac.ShortKey | src/xsha1.c:276-286 | A key of any length becomes one of at most 64 bytes which, filled with zeros, is the key of section 2 of RFC 2104 |
| Hmac.XorPad | src/xsha1.c:288-294 | The pad is the zero-filled key with the constant XORed into every byte |
| Hmac.Outer | src/xsha1.c:312-330 | The second hash is the digest of the outer pad followed by the inner digest |
| Hmac.HmacContext.constructor | src/xsha1.c:270-302 | A context for the key, with no text yet |
| Hmac.HmacContext.Update | src/xsha1.c:304-307 | The text grows by the data |
| Hmac.HmacContext.Final | src/xsha1.c:309-331 | Streaming gives the HMAC of RFC 2104 of key and whole text, for every split and every key length |
| Hmac.HmacVector | src/xsha1.c:344-396 | hmac_sha1_vector gives the HMAC of the concatenation of its pieces, so it agrees with the streaming form |
| Hmac.PrfInto | src/xsha1.c:429-459 | sha1_prf fills the whole buffer with the PRF's output for that length, the last block cut |
| Hmac.LastBlock | src/xsha1.c:447-457 | A buffer that ends inside block k gets the first bytes of that block, and one that ends at its start gets none of it |
| Hmac.PrfPrefix | src/xsha1.c:415-459 | A shorter output is a prefix of every longer one |
| Hmac.PrfByte | src/xsha1.c:439-458 | Byte i of any long enough output is byte i mod 20 of the HMAC block of i / 20 mod 256 |
| Hmac.CounterWraps | src/xsha1.c:432-457 | The one-byte counter makes the blocks repeat after 256 |
| Sha1Stream.BufferDigest | src/xsha1.c:465-479 | The digest of a buffer is the digest of its bytes |
| Sha1Stream.FillBlock | src/xsha1.c:501-535 | The inner reading loop stops with a full block, with the end of a file read to the end, or with a failed read; nothing is lost or read twice |
| Sha1Stream.StreamDigest | src/xsha1.c:481-552 | However the reads are cut short, the digest is that of the whole content; it fails exactly when reading fails |
| Base64.AlphabetIs | src/base64.c:53-54 | The table lookup and the position in the table are inverse maps of the sixty-four digits |
| Base64.EncodeLength | src/base64.c:308-316 | The closed formula is the length of every encoding |
| Base64.EncLen | src/base64.c:308-316 | base64_enclen is the length of the encoding of every input of that length |
| Base64.DecLen | src/base64.c:324-330 | base64_declen of an encoding's length leaves room for whatever was encoded |
| Base64.EncodeInto | src/base64.c:121-177 | Succeeds exactly when the encoding and its terminator fit, then holds the encoding of RFC 4648 and a NUL, and never writes beyond targsize |
| Base64.ParseOfEncode | src/base64.c:121-300 | The reference parser gives back every encoded input, with clean pad bits |
| Base64.EncodeOfParse | src/base64.c:186-300 | A text that parses with clean pad bits is the encoding of what it parses to |
| Base64.Canonical | src/base64.c:186-300 | Encodings are exactly the canonical texts, and determine the bytes |
| Base64.RawStep | src/base64.c:205-245 | One more digit changes the bytes stored so far exactly as the decoder's switch does |
| Base64.ParseDigits | src/base64.c:186-300 | Reading the digits first and judging the end afterwards, as the decoder does, accepts the same texts with the same bytes as the reference parser |
| Base64.StoreDigit | src/base64.c:205-245 | The stores of each state succeed exactly when there is room, change only the bytes in question and nothing from targsize on |
| Base64.DecodeDigits | src/base64.c:194-246 | The reading loop stops behind the first '=', at the end or with an error, and an error means that the text is not acceptable |
| Base64.PaddingEnds | src/base64.c:253-289 | After an '=' the text is accepted exactly when the padding is complete and only white space follows |
| Base64.DecodeInto | src/base64.c:186-300 | The result is the decoded length exactly when the text without white space is canonical and fits, else -1; the target then begins with the bytes and is untouched from targsize on |
| Base64.AcceptsEncodings | src/base64.c:186-300 | With a target, decoding succeeds with the bytes x if and only if the text without white space is the encoding of x and there is room |
| Base64.RoundTrip | src/base64.c:121-330 | The stored text is the encoding with its NUL in base64_enclen(n) + 1 characters; decoding that text into base64_declen of its length, three bytes for every four characters, returns n and the original bytes |
| Base64.Vectors | src/base64.c:53-177 | The encodings of the seven texts in section 10 of RFC 4648, from the empty one to "foobar", are those given there |
| Base64.Spaces | src/base64.c:194-198 | The characters passed over are the six of isspace |
| Heap.RootIsLeast | src/xheap.c:100-113 | In heap order the first slot is not greater than any other, for any strict weak order |
| Heap.UpStep | src/xheap.c:67-73 | Moving the parent down into the hole keeps heap order except above the hole |
| Heap.DownStep | src/xheap.c:84-95 | Moving the least child up into the hole keeps heap order except below the hole |
| Heap.LeastChild | src/xheap.c:84-90 | The child selected is a least one even when one side of the comparison was the moved element in its old slot |
| Heap.Heap.constructor | src/xheap.c:36-61 | An empty heap |
| Heap.Heap.ShiftUp | src/xheap.c:63-76 | The element joins and heap order holds |
| Heap.Heap.PickChild | src/xheap.c:84-90 | Among the children and possibly the stale slot the loop chooses a least child, or finds that none is less than the moved element |
| Heap.Heap.Sink | src/xheap.c:78-98 | The loop, run while the moved element still occupies the last slot, ends at a hole where that element belongs |
| Heap.Heap.ShiftDown | src/xheap.c:78-98 | The remaining slots are in heap order and hold all elements but the first |
| Heap.Heap.Push | src/xheap.c:132-147 | The elements are the old ones and the new one, through the doubling of the slots |
| Heap.Heap.Pop | src/xheap.c:100-113 | Nothing exactly for an empty heap; else an element that is not greater than any other, and the rest remains |
| Heap.Heap.Drain | src/xheap.c:100-113 | Popping until empty gives a sorted permutation of the elements |
| Heap.OneSide | src/xheap.c:199-207 | Below a slot lie the slot, what is below its left child and what is below its right, without overlap |
| Heap.VisitsOnce | src/xheap.c:199-207 | A traversal started anywhere visits exactly the slots below, each once |
| Heap.TraverseVisitsAll | src/xheap.c:199-207 | Started at the root it visits every used slot exactly once |
| Heap.HandedIsVisited | src/xheap.c:199-207 | The data handed to the handler are those of the visited slots, in order |
| Heap.Traverse | src/xheap.c:199-207 | The recursive function hands over, in order, what the in-order walk of the implicit tree says |
| Heap.KeyComparators | src/xheap.c:223-226 | Differences of keys and boolean "greater" comparators are strict weak orders, so the theorems hold for both |
| Ring.Init | include/xlist.h:23-27 | The head alone is an empty ring |
| Ring.Insert | include/xlist.h:36-44 | Linking between two neighbours inserts the element at that place of the sequence |
| Ring.AddTail | include/xlist.h:68-71 | The ring's sequence is extended at its end |
| Ring.Delete | include/xlist.h:80-98 | The ring's sequence loses the element, whose own pointers are cleared |
| Ring.Get | src/xlist.c:4-17 | Nothing exactly from an empty list; else the first element, and the ring holds the others in order |
| Ring.Len | src/eloop/list.h:54-61 | The loop counts the elements |
| Ring.RemoveMatching | src/eloop/list.h:83-87 | Iterating with the successor read beforehand, deletion in the body keeps exactly the elements that do not match, in order, and counts the others |
| Queue.LockStep | src/xqueue.c:11-49 | Every step keeps mutual exclusion: at most one thread is between lock and unlock |
| Queue.CountStep | src/xqueue.c:21-49 | Every step keeps the counter equal to the list's length, up to the thread inside the lock |
| Queue.BoundStep | src/xqueue.c:116-145 | Every step keeps the count and the committed producers within the bound |
| Queue.WakeStep | src/xqueue.c:21-49 | Every step keeps the announcement of a non-empty list |
| Queue.InvRun | src/xqueue.c:21-166 | All the invariants hold in every reachable state, for any interleaving |
| Queue.FirstInFirstOut | src/xqueue.c:21-49 | Dequeue order is enqueue order: the nodes taken and those in the list are the nodes linked, in order; with one handler thread they are handled in that order |
| Queue.HandledAtMostOnce | src/xqueue.c:148-166 | No node is handled twice; a linked node is in exactly one of the list, a consumer's hands and the handled ones |
| Queue.NoLostWakeup | src/xqueue.c:21-49 | A non-empty list implies a positive semaphore, a producer between insert and post, or a consumer in its drain loop |
| Queue.WakeupsCounted | src/xqueue.c:21-49 | The wake-ups that are posted or about to be are never more than the nodes linked |
| Queue.NothingLeftBehind | src/xqueue.c:116-166 | When producers are idle and no consumer can move, the list is empty and everything linked has been handled |
| Queue.CapacityBound | src/xqueue.c:116-145 | With a limit the count never exceeds it by more than the number of producers less one |
| Queue.CapacityAttained | src/xqueue.c:116-145 | For every limit and every number of producers some interleaving reaches that bound |
| Queue.Unlimited | src/xqueue.c:116-145 | Without a limit the queue grows to any number of nodes |
| Queue.RefusedExactly | src/xqueue.c:116-145 | In every reachable state an enqueue is refused, without effect, exactly when there is a limit and the counter has reached it; else the producer goes on with a new node |
| Queue.QuietRunsEnd | src/xqueue.c:11-166 | From any state, a run without new enqueues takes at most as many steps as a measure of the state: no thread spins |
| Queue.NoDeadlock | src/xqueue.c:11-145 | In every reachable state with a call of xqueue_enqueue that has not returned, some thread can go on |
| Queue.EverythingHandled | src/xqueue.c:11-166 | From every reachable state with a consumer some run without new enqueues ends with every call returned, the list empty and every node handled exactly once |
| Hash.PushChained | src/xhash.c:195-200 | A new bucket at the head of its chain keeps every chain well linked and every bucket in the chain of its key modulo the size |
| Hash.UnlinkChained | src/xhash.c:133-150 | Unlinking a bucket, first in its chain or not, keeps all chains well linked and placed |
| Hash.Table.constructor | src/xhash.c:19-60 | An empty map |
| Hash.Table.Search | src/xhash.c:103-110 | The walk of one chain finds the bucket of an identity, and the bucket before it, exactly when the map has it |
| Hash.Table.Get | src/xhash.c:93-114 | The map's value, or nothing |
| Hash.Table.Set | src/xhash.c:158-205 | A new identity is added and counted; data of a known one is replaced and the old freed, or the given data freed when the two are the same by hash_cmp_other |
| Hash.Table.Delete | src/xhash.c:117-154 | 0 and the freed data and a map without the identity, or -1 and no change; the count is exact |
| Hash.Table.Release | src/xhash.c:216-251 | As Delete, but the data is given back |
| Hash.Table.Clean | src/xhash.c:269-295 | Every bucket is freed and every datum handed over, as many as the count said; the map is empty |
| Hash.Table.Find | src/xhash.c:321-350 | Some datum of the map that passes the test, and nothing only if none does |
| Tracker.HashKey | src/xtrace2.c:59-80 | The loops compute in wrapping unsigned arithmetic the key that depends on the site alone |
| Tracker.HasAddr | src/xtrace2.c:105-117 | Found exactly when the node records the address |
| Tracker.RemoveAddr | src/xtrace2.c:119-156 | The address's record is replaced by the last one and the rest keep their places; nothing changes if it is not there; the arrays go with the last record |
| Tracker.ExactInsert | src/xtrace2.c:225-262 | A record for a fresh address keeps pages and ledger in exact agreement |
| Tracker.ExactRemove | src/xtrace2.c:296-318 | Taking the record from its page, and the page when it is empty, keeps the agreement with the ledger without the address |
| Tracker.Tracker.constructor | src/xtrace2.c:338-358 | An empty ledger |
| Tracker.Tracker.Insert | src/xtrace2.c:225-262 | After any run of insertions and removals, one more insertion of an address not recorded makes the ledger that of the longer run, with its site and size; each site keeps one node |
| Tracker.Tracker.FindByAddr | src/xtrace2.c:266-294 | The walk over all chains finds a node that records the address, and nothing only when the ledger lacks it |
| Tracker.Tracker.RecordedOnce | src/xtrace2.c:266-294 | Of all nodes only that of the ledger's site records an address |
| Tracker.Tracker.Remove | src/xtrace2.c:296-318 | After any run, the result is 0 exactly when some insertion of the address is outstanding; the ledger becomes that of the longer run and loses just that address |
| Tracker.LedgerExact | src/xtrace2.c:225-318 | In the ledger of any run with allocator-fresh addresses, which Insert and Remove keep, an address is recorded exactly when it is allocated and not released since, once, with that allocation's site and size |
| Timers.BeforeIsLess | src/eloop/os.h:69-75 | On normalised times the comparison is that of the microseconds |
| Timers.SubIsDifference | src/eloop/os.h:77-86 | The difference of normalised times, negative ones included, is exact and normalised |
| Timers.Normalise | src/eloop/eloop.c:382-387 | The carrying loop keeps the time and normalises it |
| Timers.InsertKeepsOrder | src/eloop/eloop.c:392-403 | Behind equal deadlines and before later ones, a new timer keeps the list sorted by deadline and registration |
| Timers.InsertKeepsElements | src/eloop/eloop.c:392-403 | Nothing else is lost or duplicated by an insertion |
| TimerLists.RegisterTimer | src/eloop/eloop.c:392-403 | On the pointers of the list, the search and the two ways of adding make the ring hold the timers in the order that Timers.Insert gives, each old element once and the new one |
| TimerLists.CancelTimers | src/eloop/eloop.c:412-433 | On the pointers, the deleting iteration leaves the ring of exactly the timers that the cancellation does not match, in order, and counts the others |
| TimerLists.RemoveFirst | src/eloop/eloop.c:406-410 | The first timer is unlinked and the ring holds the others in order; nothing happens to an empty list |
| Timers.EventTimers.Register | src/eloop/eloop.c:351-404 | The list gains one timer for now plus the request at its place in the order, or stays the same when the seconds overflow: the registration step of the runs below |
| Timers.EventTimers.Cancel | src/eloop/eloop.c:412-433 | On the fields: a timer stays exactly if its handler differs, or a context that is no wild card does; the rest keep their order, and the result counts: the cancellation step of the runs below |
| Timers.WildCards | src/eloop/eloop.c:412-433 | What a cancellation matches with both wild cards, with either one and with none, where it is what the search matches |
| Timers.EventTimers.CancelOne | src/eloop/eloop.c:435-462 | Only the earliest match goes; the remaining time is exact, and zero for an overdue one: again a step of the runs below |
| Timers.EventTimers.IsRegistered | src/eloop/eloop.c:464-478 | 1 exactly when some timer has this handler and both contexts, wild cards standing for themselves |
| Timers.EventTimers.Deplete | src/eloop/eloop.c:480-513 | Result and list for the code's comparison of the request, microseconds not carried, with the remaining time; when it takes effect it is a cancellation, time passing and a registration, of which a deadline that overflows leaves only the first. DepleteExactly says what the comparison means |
| Timers.EventTimers.Replenish | src/eloop/eloop.c:515-544 | The same for the opposite comparison, whose meaning ReplenishExactly gives |
| Timers.AdjustedResult | src/eloop/eloop.c:480-544 | -1 exactly when no timer matches; unless the result is 1 the list is unchanged; after a 1 with a deadline that overflows no timer matches any more |
| Timers.OneMatch | src/eloop/eloop.c:480-544 | After a result of 1 the new timer is the only one that matches |
| Timers.OthersKept | src/eloop/eloop.c:480-544 | All other timers keep their places if and only if everything the cancellation matches, the search matches too: always for contexts other than ELOOP_ALL_CTX |
| Timers.ReplenishedEnough | src/eloop/eloop.c:515-544 | After a non-negative result every matching timer, overdue ones included, has at least the request remaining |
| Timers.ReplenishExactly | src/eloop/eloop.c:515-544 | A replenish leaves alone only timers with enough time if and only if the request has at most a million microseconds |
| Timers.DepletedEnough | src/eloop/eloop.c:480-513 | After a non-negative result the earliest match has at most the request remaining, for every request, from the first reading of the clock if it was left alone and from the second if it is new |
| Timers.DepleteExactly | src/eloop/eloop.c:480-513 | A deplete replaces only timers with more than the request remaining if and only if the request has less than a million microseconds |
| Timers.DepleteLengthens | src/eloop/eloop.c:480-513 | One second left and three million microseconds requested: the timer is replaced by a later one |
| Timers.EventTimers.Expire | src/eloop/eloop.c:699-713 | At most one timer fires, one does exactly when some timer is due, and it precedes all others: the expiry step of the runs below |
| Timers.InvRun | src/eloop/eloop.c:351-713 | In every run of registrations, cancellations, clock advances and expiries the pending list stays sorted behind what has fired |
| Timers.FiredInOrder | src/eloop/eloop.c:700-713 | In every run no timer fires before its deadline, fired deadlines never decrease, and equal ones fire in order of registration |
| Timers.FiresWhenDue | src/eloop/eloop.c:700-713 | At any moment of a run a timer fires exactly when some pending timer is due, and then the first in order |
| Sockets.SocketLoop.constructor | src/eloop/eloop.c:95-113 | Empty tables |
| Sockets.SocketLoop.GrowFdTable | src/eloop/eloop.c:166-181 | The grown descriptor table keeps every slot that has been written |
| Sockets.SocketLoop.RegisterSock | src/eloop/eloop.c:150-222 | Both growths, the new last entry of the table, the raised flag, the watched descriptor and its slot, or the entry without these when epoll_ctl fails |
| Sockets.SocketLoop.UnregisterSock | src/eloop/eloop.c:224-260 | The first entry of the descriptor goes, the others move down in order, the slot is cleared and the descriptor no longer watched; nothing happens without an entry |
| Sockets.IndexedAdd | src/eloop/eloop.c:150-222 | Registering a descriptor that is not registered and in reach succeeds and keeps index and tables in agreement |
| Sockets.IndexKeptExactly | src/eloop/eloop.c:150-222 | A registration keeps the agreement if and only if its descriptor is not registered, in reach of the growth step and not refused |
| Sockets.IndexedRemove | src/eloop/eloop.c:224-260 | Unregistering any descriptor keeps the agreement |
| Sockets.IndexAgrees | src/eloop/eloop.c:150-260 | Any well-used sequence of calls keeps the agreement |
| Sockets.IndexFromStart | src/eloop/eloop.c:95-260 | From eloop_init on, each table entry is the one in its descriptor's slot and watched; the count is the sum of the tables' and at most the size of the event array |
| Sockets.ReachExactly | src/eloop/eloop.c:166-181 | The one growth step suffices if and only if the descriptor is below twice the table's size, or below 16 at first |
| Sockets.SecondRegistration | src/eloop/eloop.c:205-260 | A second registration of a watched descriptor, in any table, fails but leaves an entry; unregistering then silences the first registration, and leaves the entry of the first when the tables differ, and the dead one when they do not |
| Sockets.OpsAnnounce | src/eloop/eloop.c:150-260 | Every call that changes the descriptor table or withdraws a registration raises a changed flag |
| Sockets.RunInvStep | src/eloop/eloop.c:643-739 | Every step of the loop, handlers included, keeps reported events tied to registrations in force while no flag is raised |
| Sockets.RunInvRun | src/eloop/eloop.c:643-739 | So does every run |
| Sockets.NoStaleEvent | src/eloop/eloop.c:262-739 | In every run, whatever handlers register within reach, withdraw or close, each socket handler called belongs to a registration of that descriptor in force since the epoll_wait that reported the event |
| Sockets.NextEventCalls | src/eloop/eloop.c:262-281 | The next event calls the entry of its descriptor, in whichever table, if that has a handler, and nothing for a descriptor without an entry |
| Sockets.EntryCalled | src/eloop/eloop.c:262-281 | In particular any entry of any table that has the descriptor of the next event and a handler is called next, with that entry's data |
| Sockets.IndexedRun | src/eloop/eloop.c:262-739 | Index and tables agree throughout every run whose registrations are well used, whatever handlers do between events, so that the two laws above apply at each event |
| Sockets.BatchDispatched | src/eloop/eloop.c:262-739 | A batch that epoll_wait reports is dispatched to its end if no handler registers or unregisters: the calls are the entries of its events, in their order, and no other |
| Signals.SignalLoop.HandleSignal | src/eloop/eloop.c:556-578 | The handler's writes are the delivery step of the state machine: total, first mark of the signal, and the alarm for a termination signal |
| Signals.SignalLoop.RegisterSignal | src/eloop/eloop.c:606-625 | The reallocated table with the four stores keeps all entries and marks, whatever the new slot held; the signal is then answered by the new handler unless an earlier registration answers it, and no other signal is answered differently |
| Signals.FirstRegistered | src/eloop/eloop.c:556-625 | A handler registered later answers a signal only if none registered before does |
| Signals.InvStep | src/eloop/eloop.c:556-604 | A delivery, a statement of the pass or a registration keeps: marks are seen by the pass or announced, and every unanswered delivery is still owed |
| Signals.InvRun | src/eloop/eloop.c:556-604 | So does every run |
| Signals.NoSignalLost | src/eloop/eloop.c:556-604 | A delivery of a registered signal is followed by its first-registered handler in the pass then running or the next; outside a pass, in the very next |
| Signals.NothingForgotten | src/eloop/eloop.c:556-604 | Outside a pass any non-zero mark implies a positive total, and a running alarm implies a pending termination and a positive total |
| Signals.NoSpuriousCall | src/eloop/eloop.c:580-604 | A handler is called at most once for each delivery |
| Signals.PassEnds | src/eloop/eloop.c:580-604 | Whatever signals are delivered meanwhile, a pass whose handlers register nothing ends after a bounded number of its statements |
| Signals.Terminations | src/eloop/eloop.c:556-578 | SIGINT and SIGTERM, and only they, make a termination pending, and the first of them starts the alarm |
| Signals.WholePass | src/eloop/eloop.c:580-604 | A pass in which nothing else happens calls the handlers of the marked entries, each once and in the order of their registration, and leaves no mark and no pending termination, whose alarm is off; without a delivery it does nothing |
| Signals.AnyTable | src/eloop/eloop.c:606-625 | The program, or a handler, can register any entries: the runs of the laws above reach every table |
| JsonStrings.UnitsSpell | src/cJSON.c:166-225 | A literal that reads as units is spelled by them, up to its closing quote |
| JsonStrings.UnitsOfText | src/cJSON.c:166-225 | Reading back the text of any well-formed units gives those units and stops at the quote |
| JsonStrings.TheEscapes | src/cJSON.c:185-216 | The eight escapes of section 7 of RFC 8259 yield the codes given there; any other character stands for itself |
| JsonStrings.TheHexDigits | src/cJSON.c:153-164 | The sixteen hexadecimal digits of either case have their values |
| JsonStrings.Utf8ReadsBack | src/cJSON.c:205-213 | Every code point can be read back from the stored bytes |
| JsonStrings.Utf8Forms | src/cJSON.c:205-213 | First and later bytes have the forms that section 3 of RFC 3629 gives for each length, and no shorter form would hold the code point |
| JsonStrings.ContinuationBits | src/cJSON.c:207-212 | The masks and shifts on 32-bit words are the model's arithmetic, for all words |
| JsonStrings.PairBits | src/cJSON.c:202 | So is the combination of surrogate halves |
| JsonStrings.PairsOfAll | src/cJSON.c:202 | The pair that RFC 2781 makes of a code point beyond the first plane is combined to that code point |
| JsonStrings.DecodeIsMeaning | src/cJSON.c:178-222 | What is stored equals the concatenation of plain bytes, simple escapes and UTF-8 forms, \u0000 and lone halves contributing nothing, if and only if no contributing escape is swallowed; else it is shorter |
| JsonStrings.LetterLost | src/cJSON.c:197-203 | A concrete literal that loses a letter |
| JsonStrings.RoomForDecoded | src/cJSON.c:172-222 | The first pass counts at least as many bytes as the second stores, for all units |
| JsonStrings.FirstPassSuffices | src/cJSON.c:172-222 | On every well-formed literal text the counted length is enough and the first pass stops at the closing quote |
| JsonStrings.StringRoundTrip | src/cJSON.c:166-261 | Printing any NUL-free string and parsing it back gives the string and leaves what follows |
| JsonStringCode.StoreUtf8 | src/cJSON.c:205-213 | Storing from the last byte to the first puts the UTF-8 form behind what was there |
| JsonStringCode.ReadEscape | src/cJSON.c:193-203 | The escape case consumes one or two escapes and yields their code point, or 0 when nothing is to be stored |
| JsonStringCode.DecodeHex | src/cJSON.c:193-214 | Consuming escapes in this way stores the decoding of all units |
| JsonStringCode.CountRoom | src/cJSON.c:172 | The first pass computes the specified count |
| JsonStringCode.ParseStringAt | src/cJSON.c:166-225 | Two passes over one buffer give the specified string, or the failure, and every store is inside the counted room |
| JsonStringCode.QuotedLength | src/cJSON.c:233 | The length counted for a character is that of its printed form |
| JsonStringCode.PrintStringPtr | src/cJSON.c:228-261 | The buffer is exactly the quoted text and its NUL, so exactly len+3 bytes are written; just a NUL for a null pointer |
| JsonNumbers.NumberSpelled | src/cJSON.c:109-128 | parse_number reads every literal of RFC 8259's grammar to its end and yields its exact decimal value, whatever follows that does not continue it |
| JsonNumbers.DigitsAccumulate | src/cJSON.c:109-151 | Accumulating the printed digits gives the number back, and only 0 begins with 0 |
| JsonNumbers.IntSpelled | src/cJSON.c:131-151 | What is printed for an integer is a literal of the grammar that denotes it |
| JsonNumbers.TheInts | src/cJSON.c:135 | The integers printed in this way are those from -2^31 to 2^31-1, zero without a sign |
| JsonNumbers.IntFits | src/cJSON.c:137-138 | Any 32-bit integer and its NUL fit the 21 bytes allocated |
| JsonNumbers.ParseNumberAt | src/cJSON.c:109-128 | The loops compute the specified decimal and the place where the number ends |
| Json.ValueSpelled | src/cJSON.c:300-452 | Every text of the grammar, with any white space between tokens, parses to its tree and leaves exactly what follows |
| Json.ChildrenSpelled | src/cJSON.c:344-451 | The loops over elements and members read every list of the grammar to its closing bracket |
| Json.DocumentParses | src/cJSON.c:277-291 | A document with surrounding white space parses to its tree, also when the end of the text is required |
| JsonAccepts.ProperStands | src/cJSON.c:300-452 | The grammar of RFC 8259 is part of the wider one of the next row, with the same trees |
| JsonAccepts.Accepted | src/cJSON.c:300-452 | Whatever parse_value accepts begins with a text of the RFC's grammar, widened by white space of any characters up to 32, by numbers that lack digits and by a leading zero in them; the result is what that stands for |
| JsonAccepts.ValueReadsOut | src/cJSON.c:300-452 | Conversely every text of that grammar is read to its end, whatever follows that does not continue a number, and becomes what it stands for |
| JsonAccepts.AcceptsExactly | src/cJSON.c:277-452 | With the end required, cJSON_ParseWithOpts yields an item if and only if the text is a value of that grammar with white space around it that stands for the item |
| JsonAccepts.NumberRead | src/cJSON.c:109-128 | Of any text parse_number reads such a number, and yields its exact value and what follows it |
| JsonAccepts.RequiredEnd | src/cJSON.c:277-291 | With the end required, a text is accepted exactly if it is without that and only characters up to 32 follow the value, with the same value and nothing left; else it fails at the first character above 32, or where it fails anyway |
| TreeBuild.ParseStringInto | src/cJSON.c:166-225 | The node receives an allocated string of the specified content as value or name; on failure nothing is allocated |
| TreeBuild.ParseValueInto | src/cJSON.c:300-312 | In memory the node grows into a well-linked tree that stands for the specified value, or the specified failure place is given and the partial tree is still well linked; nothing else changes |
| TreeBuild.ParseListInto | src/cJSON.c:333-452 | The same for arrays and objects |
| TreeBuild.ParseChildrenInto | src/cJSON.c:344-449 | The loop appends one linked child a turn, and stands at each turn for what has been read |
| TreeBuild.FreedNew | src/cJSON.c:284-287 | Freeing what has been built for a new root leaves memory as it was |
| TreeBuild.ParseWithOpts | src/cJSON.c:277-291 | On success one more tree, without references, for what the text says, all else unchanged, and with the end required the end is reached; on failure a null pointer, the error place, and the memory exactly as before |
| JsonPrint.SyntaxTree | src/cJSON.c:315-523 | What is printed is a syntax of the grammar that stands for the tree |
| JsonPrint.ItemText | src/cJSON.c:315-523 | The printed text spells that syntax, formatted or not and at any depth |
| JsonPrint.PrintParses | src/cJSON.c:300-523 | Parsing what print_value produced, at any depth and in either format, gives back the tree and leaves what follows |
| JsonPrint.RoundTrip | src/cJSON.c:277-297 | Printing and parsing is the identity and consumes the whole text, with or without the end required |
| JsonAccepts.ParsedPrintsBack | src/cJSON.c:277-523 | Whatever text an item was read from, it can be printed in full if its numbers are integers, and parsing what is printed gives the item again: no string that was read is ever cut short |
| JsonPrintCode.ArrayFits | src/cJSON.c:383-415 | The length print_array sums is enough for brackets, entries, separators and NUL |
| JsonPrintCode.ObjectFits | src/cJSON.c:475-522 | The length print_object sums is enough for braces, tabs, members, line ends and NUL |
| JsonPrintCode.ComposeArray | src/cJSON.c:404-415 | The composing loop writes the text of the array from its printed entries, in a buffer of the summed length |
| JsonPrintCode.ComposeObject | src/cJSON.c:503-522 | The same for objects, from the printed names and entries |
| TreePrint.CollectElements | src/cJSON.c:382-389 | The walk over the children prints each, in order, and sums the length of print_array |
| TreePrint.CollectMembers | src/cJSON.c:482-489 | The walk over the children prints names and values, in order, and sums the length of print_object |
| TreePrint.PrintValue | src/cJSON.c:315-330 | From the item in memory, through references too, the output is the specified text of the tree that is seen, every byte stored inside its allocation |
| TreePrint.PrintArray | src/cJSON.c:361-416 | Counting, printing and composing write the specified text within the summed length |
| TreePrint.PrintObject | src/cJSON.c:455-523 | The same for objects, with names and tabs |
| JsonMinify.BlockEnds | src/cJSON.c:632 | The skip ends where the block comment does if and only if the comment does not begin with a slash, and otherwise right after that slash |
| JsonMinify.GoneExactly | src/cJSON.c:627-632 | White space or a comment disappears whatever follows it if and only if it is not a block comment beginning with a slash, or the rest of that one is white space, line comments and at its end another block comment |
| JsonMinify.CommentedExactly | src/cJSON.c:627-632 | A whole gap disappears whatever follows it if and only if its text is white space, whole comment lines and what the scanner takes for block comments, which is the condition of the theorems below |
| JsonMinify.GonePieces | src/cJSON.c:627-632 | Gaps whose pieces disappear one by one meet that condition |
| JsonMinify.LiteralStays | src/cJSON.c:633 | String literals are copied whole, escapes and quotes included |
| JsonMinify.GapVanishes | src/cJSON.c:627-632 | The white space and comments of such a gap disappear in front of any text |
| JsonMinify.ValueMinified | src/cJSON.c:622-637 | The minified text of a syntax is the text of the same syntax without gaps |
| JsonMinify.MinifyKeepsMeaning | src/cJSON.c:622-637 | For every text of the grammar with comments wherever white space may stand, in gaps that disappear whatever follows them, the minified text parses to the tree to which the text without its comments parses |
| JsonMinify.KeptByAccident | src/cJSON.c:622-637 | For whole documents the condition on gaps is not necessary: a concrete text whose gap does not disappear and whose meaning is kept |
| JsonMinify.MinifyTwice | src/cJSON.c:622-637 | Minifying again changes nothing |
| JsonMinify.MinifyPrinted | src/cJSON.c:296-637 | Minifying what cJSON_Print writes gives what cJSON_PrintUnformatted writes |
| JsonMinify.CommentReadAsText | src/cJSON.c:632 | A concrete text whose comment becomes an element: the minified text is well formed and means something else |
| JsonMinifyCode.Turn | src/cJSON.c:627-634 | One turn of the loop moves on, never writes beyond the read place, and keeps written part plus minified rest equal to the whole |
| JsonMinifyCode.MinifyInPlace | src/cJSON.c:622-637 | In place the array begins with the minified text and a NUL, is untouched behind the old text, and the loop ends |
| TreeShapes.HeldFrame | src/cJSON.c:94-106 | A tree in memory depends only on the allocations that it owns |
| TreeForest.EditHeld | src/cJSON.c:549-574 | Changing the children of one container, and nothing else, leaves the rest of its tree as it was |
| TreeForest.RelinkedRoots | src/cJSON.c:549-574 | Giving a container other children, some from outside while some leave, keeps all trees well linked and every allocation owned once |
| TreeLinks.AddedRelinks | src/cJSON.c:544-549 | The writes of an addition make the sibling chain the old children followed by the new one |
| TreeLinks.DetachedRelinks | src/cJSON.c:554-565 | The writes of a detachment make it the children without the one, which becomes a root of its own |
| TreeLinks.ReplacedRelinks | src/cJSON.c:571-573 | The writes of a replacement put the new item in the old one's place |
| TreeItems.Store.Delete | src/cJSON.c:94-106 | Every allocation owned by the item and its later siblings is freed, exactly once, and nothing else: what is only reached through a reference stays |
| TreeItems.Store.Create | src/cJSON.c:577-584 | A new root of the kind, in a new allocation |
| TreeItems.Store.CreateString | src/cJSON.c:582 | A new root with its own copy of the string |
| TreeItems.Store.CreateReference | src/cJSON.c:546 | A new root that shares the other's string and children and owns neither |
| TreeItems.Store.AddItemToArray | src/cJSON.c:549 | The root becomes the list's last child, wherever the list is; no allocation is made or lost |
| TreeItems.Store.AddItemToObject | src/cJSON.c:550 | The same under a copy of the name: that copy is the one allocation made, and the item's old name the one freed |
| TreeItems.Store.AddItemReferenceToArray | src/cJSON.c:551 | The list gains a reference to any item of any tree, which itself is unchanged |
| TreeItems.Store.AddItemReferenceToObject | src/cJSON.c:552 | The same under a name |
| TreeItems.Store.DetachItemFromArray | src/cJSON.c:554-565 | The child of that number becomes a root and the others keep their order; null and no change if there is none |
| TreeItems.Store.DetachItemFromObject | src/cJSON.c:567 | The first child of that name, whatever its case, becomes a root; null and no change if there is none |
| TreeItems.NamesRecased | src/cJSON.c:43-50 | A child is found under a name exactly if its own name is the same but for the case of the letters A to Z |
| TreeItems.RecasedSelects | src/cJSON.c:567 | A name and any recasing of it select the same child |
| TreeItems.NthSelects | src/cJSON.c:554-559 | A number below the count selects that child, a negative one the first, a greater one none |
| TreeItems.Store.DeleteItem | src/cJSON.c:94-106 | Deleting a root frees exactly what it owns, and all other trees stay |
| TreeItems.Store.DeleteItemFromArray | src/cJSON.c:566 | The child leaves its list and what it owns is freed |
| TreeItems.Store.DeleteItemFromObject | src/cJSON.c:568 | The same for the first child of a name |
| TreeItems.Store.ReplaceItemInArray | src/cJSON.c:571-573 | The new item takes the place of the old, which is freed; no change if there is none |
| TreeItems.Store.ReplaceItemInObject | src/cJSON.c:574 | The same by name, under a copy of it; the name that the new item had stays allocated and unowned, and nothing else does |
| TreeReferences.DetachThroughReference | src/cJSON.c:546-565 | Through a reference, detaching any child but the first is detaching from the list itself; the first is handed out while the list still begins with it, so no two trees there can own their allocations apart |
| TreeReferences.ReferenceShares | src/cJSON.c:546 | What create_reference makes of a container, anywhere in any tree, is a node of the kind that the theorems about references are about |
| TreeReferences.DeleteThroughReference | src/cJSON.c:566 | Deleting any child but the first through a reference is deleting it from the list itself; after the first is freed the list still begins with it, and no tree is held there any more |
| TreeReferences.ReplaceThroughReference | src/cJSON.c:571-573 | Replacing any child but the first through a reference is replacing it in the list itself; after the first is replaced and freed no tree is held at the list any more |
| TreeReferences.AddThroughReference | src/cJSON.c:549 | Adding through a reference is adding to the list itself when it has children; when it has none the list stays empty and no tree at the list or at the reference owns the new item |
| TreeCopy.DuplicateTree | src/cJSON.c:595-620 | The recursion builds, beside everything there, a tree with the meaning of what is seen from the item |
| TreeCopy.Duplicate | src/cJSON.c:595-620 | A new root, equal in types, numbers, names and strings to what is seen from the item, itself or its children references or not; it owns all its allocations, which are new, and is free of references; all that was there is unchanged |
| TreeCopy.HeldSeen | src/cJSON.c:609-618 | From the root of any tree without references one sees that tree, so its copy equals it |
| TreeCopy.TreeSeen | src/cJSON.c:595-620 | From the root of any tree whose references do not dangle one sees the tree and, below each reference, what that refers to; so it can be copied, with references among its children |
| TreeCopy.ReferenceSeen | src/cJSON.c:546-620 | From a reference one sees what one sees from the item referred to, references below that included, so its copy equals a nameless copy of that item |

## Left out

- Failing allocations (`malloc` returning null) everywhere, and the cleanups behind them.
- Overflow of sizes and counters that are `int` or `unsigned` in C: the `int` results of `base64.c`,
  `qnode_num` after 2^32 nodes, the signal totals, the exponent in `parse_number`, `long` seconds apart from
  the test in `eloop_register_timeout`.
- Floating point: numbers are exact decimals; only 32-bit integers are printed.
- Reading past the NUL: unterminated literals and comments, and truncated escapes, end in `Overrun` or no
  result in the specifications, and the methods are not called on them.
- The array builders, lookup, comparison and Base64 helpers of `cJSON.c`: compositions of what is modelled.
- Cycles made by adding an item to its own tree, and one item added twice.
- Real `epoll`, clocks, signals and threads: oracles and steps. `eloop_run` called from a handler is not
  modelled, nor is the waiting time, `eloop_destroy` or `eloop_wait_for_read_sock`.
- A signal that arrives between the `realloc` of `eloop_register_signal` and its store of the new array, and
  signal handlers that interrupt each other between the accesses of one delivery.
- `hash_iterate`, `hash_traverse`, `hash_buffer`, null data, a missing `hash_free_data` and the locks of
  `xhash.c`; `hash_cmp_key` is equality of an identity on which `hash_key` depends.
- The fixed-size name fields of the tracker's nodes: sites with names cut by `strncpy` are the sites of the
  cut names.
- `xqueue_dump`, `xqueue_traverse`, `xheap_find`, `xheap_dump` and the other components of the library.
- Sha1.AllRounds: the eighty macro uses are rolled up by the five orders of register roles, which repeat
  sixteen times.
- Sha1.Context.Update: requires that the unsigned sum of the buffered and the new bytes does not wrap; beyond
  that the code copies past its buffer.
- Sha1.Context.FillAndAbsorb: the same.
- Hmac.HmacContext.Update: the same.
- Hmac.HmacVector: keys below 2^32 bytes and pieces of at most 2^32-64, above which the lengths are truncated.
- Hmac.PrfInto: the same for key, label and data.
- Tracker.Tracker.Insert: for addresses that are not recorded, as an allocator hands them out; the code would
  record one twice.
- JsonStringCode.ParseStringAt: not for malformed or unterminated literals, on some of which the code reads
  past the end of its text.
- TreeBuild.ParseStringInto: not for those literals either.
- TreeBuild.ParseValueInto: not for texts in which the parser meets one.
- TreeBuild.ParseChildrenInto: not for texts in which the parser meets one.
- TreeBuild.ParseWithOpts: not for texts in which the parser meets one.
- JsonMinifyCode.Turn: not for texts with an unterminated literal or block comment.
- JsonMinifyCode.MinifyInPlace: not for texts with an unterminated literal or block comment, where the code
  reads and writes past the end.
- JsonNumbers.NumberSpelled: exact decimals stand for doubles; rounding and `pow` are not modelled.
- JsonNumbers.ParseNumberAt: exact decimals stand for doubles, and the exponent does not overflow.
- TreePrint.PrintValue: not for items whose string is missing, nor for numbers that no `int` holds.
- JsonMinify.MinifyKeepsMeaning: for gaps that disappear whatever follows them, which is exact for gaps; a
  document whose meaning is kept by accident, as in `JsonMinify.KeptByAccident`, is not covered.
- Sockets.SocketLoop.RegisterSock: requires the descriptor to be in reach of the one growth step, beyond which
  the code writes outside its table; `Sockets.ReachExactly` says when that is.
- Sockets.NoStaleEvent: what a registration out of reach overwrites is not modelled.
  `eloop_sock_table_dispatch` and `eloop_run` are steps of a state machine, because handlers may do anything
  between them, and so are the pass of `Signals` and the threads of `Queue`.
- Timers.EventTimers.Register: the list is a sequence here; `TimerLists` has it on pointers.
- Queue.FirstInFirstOut: the list is a sequence here; adding a node at its end and taking the first are
  `Ring.AddTail` and `Ring.Get`, which no member of `Queue` calls.
- TreeBuild.ParseListInto: one member for parse_array and parse_object, which differ in the name, the colon
  and the closing bracket; not for texts in which the parser meets a malformed literal.
- TreeItems.Store.AddItemToArray: not to a list that is a reference item (see
  `TreeReferences.AddThroughReference`), nor of an item that is linked already.
- TreeItems.Store.AddItemToObject: the same; nor with the item's own name as the new name, which the code
  frees before it copies it.
- TreeItems.Store.AddItemReferenceToArray: not to a list that is a reference item.
- TreeItems.Store.AddItemReferenceToObject: not to a list that is a reference item.
- TreeItems.Store.DetachItemFromArray: not on a list that is a reference item (see
  `TreeReferences.DetachThroughReference`).
- TreeItems.Store.DetachItemFromObject: not on a list that is a reference item (see
  `TreeReferences.DetachThroughReference`).
- TreeItems.Store.DeleteItemFromArray: not on a list that is a reference item (see
  `TreeReferences.DeleteThroughReference`).
- TreeItems.Store.DeleteItemFromObject: not on a list that is a reference item (see
  `TreeReferences.DeleteThroughReference`).
- TreeItems.Store.ReplaceItemInArray: not on a list that is a reference item (see
  `TreeReferences.ReplaceThroughReference`).
- TreeItems.Store.ReplaceItemInObject: not on a list that is a reference item (see
  `TreeReferences.ReplaceThroughReference`).

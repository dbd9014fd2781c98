# Verified model of the blockchain indexer

This project models the parts of the indexer whose results must agree with something much simpler, and proves that they
do. `dafny verify dfyconfig.toml` checks all of it.

**Fork choice** (`BlockForest`, `BlockFileWatcher`). The scanned blocks form a finite forest. `BestChain` is the
reference: at every fork the child with the tallest subtree, the last one on ties. The knock-out race that advances one
pointer per candidate and calls itself at deeper forks picks exactly that child; the walk from parent to child indexes a
path that no other linked path exceeds; the level-by-level walk files every level once and marks exactly one block of
it, the one of the same path. `Chosen` says which path that is in terms of the scan alone, ties included, and one scan
has one such path.

**The index under reorganisations** (`IndexStore`, `Numbering`, `BlockIndexer`, `Spenders`, `Credits`, `Reorg`,
`Ledger`, `MempoolMonitor`, `HttpServer`). The database is a map with atomic batches and prefix scans; counters, undo
lists and per-prefix numbering are kept as in the source. `BlockIndexer.Indexed` says what sending any block does to any
store; `Valid` ties the database to the chain of indexed blocks, entry by entry: `Credits` and `Spenders` say what an
entry and a marker mean. `Ledger.Replay` is the plain reference: every transaction removes what it spends and adds what
it creates. The balances of the query side are proved to be balances of the replay, for the methods themselves over any
number of updates (`UpdatesThenBalance`), with the exact condition under which an update keeps that true: no new block
may spend what a replaced block at a greater height spent. `Reorg.SpendMovedDown` shows the loss when it does not hold.

**Restarts** (`Restart`, `TightNumbering`, `RestartLoss`). A new process has the database but not the counters. The
number it hands out next is unused exactly when the prefix is dense: its entries are 1 to n, and no undo list names a
place beyond n. Undo lists outlive the entries that they name, so after a reorganisation this can fail although every
prefix looks whole: `RestartLoss.RestartLosesCredit` is a history of ten events that ends with an empty index while a
block of the chain pays the address. Every history whose blocks are accepted keeps the store right; restarts may come at
any time while the chain only grows, and without a restart nothing is asked of the numbers.

**Conflict report** (`DoubleSpends`). The groups are the conflict classes, and what is reported is a function of the
spends alone, so the iteration order of the map does not matter; in terms of the blocks it is exactly the conflicts
between the main chain and the others.

**Address codecs** (`Numbers`, `Base58`, `ConvertBits`, `Bech32`, `Polynomials`, `Addresses`, `ScriptSolver`,
`Vectors`). The in-place base conversion, the masked bit accumulator and the packed checksum are proved against the
numbers and polynomials that they stand for: no carry is ever left, no pending bit is dropped, the checksum is the
remainder modulo the generator of BIP 173, and every burst of up to six symbols is detected. Readers invert the texts.
An address names one destination, and scripts with the same single address pay the same one. `Vectors` holds known
texts.

**Block files** (`Bytes`, `FileReader`, `BlockReader`, `Serialization`, `BlockScanner`, `FromFiles`). A stream is a byte
sequence with a cursor and a fail flag. `Serialization` is the specification, after BIP 144, and the reader inverts it
at every position of every file; both transaction identities are hashes of whole serializations, after BIP 141.
`FromFiles` joins this to the watcher: directories of such files, while they grow, are what its updates ask for.

**RIPEMD-160 buffering** (`Ripemd160`). Writes of any size amount to one pass over the padded message.

The source's mutable objects are classes and its loops are loops; each method is tied to a function, and the theorems
are about those functions. SHA-256, RIPEMD-160 and its compression function are parameters of fixed output length. The
levels that some methods take as a ghost argument exist for every acyclic block map (`BlockForest.LevelsExist`).

## Model

| member | source | states |
|---|---|---|
| `BlockForest.BestChainIsLongestScanned` | src/blockfilewatcher.cpp:142-178 | Following the tallest child, the last on ties, gives a linked path of scanned blocks, and no linked path from the same start is longer. |
| `BlockForest.BestChainIsChosen` | src/blockfilewatcher.cpp:142-212 | In terms of the scan alone: at every block of the path, among the scanned successors from which the longest chains go on, the one on the path is that whose hash was first scanned last. |
| `BlockForest.ChosenIsUnique` | src/blockfilewatcher.cpp:142-212 | Only one path is chosen so, record for record. |
| `BlockForest.LevelsExist` | src/blockfilewatcher.cpp:90-120 | Every acyclic set of scanned blocks, each hash with one predecessor, has levels by which the walks terminate. |
| `BlockForest.GroupIsGrouped` | src/blockfilewatcher.cpp:90-120 | After the scan every scanned hash stands exactly once, under its predecessor, whatever was scanned repeatedly. |
| `BlockForest.GroupIsInScanOrder` | src/blockfilewatcher.cpp:90-120 | Under each predecessor stand the blocks that were scanned first with their hashes, in the order of the scan. |
| `BlockForest.LevelChoice` | src/blockfilewatcher.cpp:526-533 | The last tallest block of the flattened next level is the last tallest child of the block chosen one level up. |
| `BlockFileWatcher.BlockFileWatcher.ScanBlocks` | src/blockfilewatcher.cpp:90-120 | One file's blocks are added to the map as the grouping function says, whose lists `GroupIsGrouped` and `GroupIsInScanOrder` determine. |
| `BlockFileWatcher.FlatAt` | src/blockfilewatcher.cpp:123-139 | The scan of several files is that of one file after another, each in its order. |
| `BlockFileWatcher.BlockFileWatcher.FindLongestChain` | src/blockfilewatcher.cpp:142-178 | The race ends on every forest and returns the candidate greatest in (subtree height, list position), also through its calls at deeper forks. |
| `BlockFileWatcher.LastAlive` | src/blockfilewatcher.cpp:157-165 | When one pointer is left in the race, its candidate is the tallest, and the last of those that tie. |
| `BlockFileWatcher.BlockFileWatcher.ProcessNextBlock` | src/blockfilewatcher.cpp:181-212 | Whatever the reader returns for the chosen successor is sent to the indexer unless the scanned hash stands at this height; store and counters are exactly what that does, and without successor nothing changes. |
| `BlockFileWatcher.BlockFileWatcher.UpdateIndex` | src/blockfilewatcher.cpp:214-247 | An update of an index built from earlier scans sends the chosen path from the genesis predecessor to the indexer, of maximal length and with ties decided by the scan; it leaves the index in the state of that run, never with a shorter chain, and again as one built from the scan. |
| `BlockFileWatcher.BlockFileWatcher.RunUpdates` | src/blockfilewatcher.cpp:51-88 | Over any number of updates, while the files only grow, the indexed chain and the markers are those of the runs over the longest chains of the scans, one after another. |
| `BlockFileWatcher.BlockFileWatcher.UpdatesThenBalance` | src/httpserver.cpp:545-603 | After any number of updates of an empty index both balances of every address are those of the plain replay, if each update left a valid chain and moved no spend to a lower height. |
| `BlockFileWatcher.FollowsStays` | src/blockfilewatcher.cpp:90-120 | An index built from one scan is built from every larger one. |
| `BlockFileWatcher.FollowsReads` | src/blockfilewatcher.cpp:181-212 | Whatever levels the next scan has, the reader agrees with such an index on every block's height, hash and spends, and the indexed chain stands at those levels. |
| `BlockFileWatcher.BlockFileWatcher.IndexBlocksByHeight` | src/blockfilewatcher.cpp:249-285 | Files the unknown blocks of a level under the height, marks those with the main hash, returns their children in order, and only adds empty lists to the map. |
| `BlockFileWatcher.BlockFileWatcher.DumpDoubleSpends` | src/blockfilewatcher.cpp:518-533 | The level walk files exactly the levels of the forest, one main-chain block marked on each, and these form the path that the update walk indexes. |
| `BlockFileWatcher.UpdateAgreesIff` | src/blockfilewatcher.cpp:214-247 | After an update that reaches at least the old tip the markers are those of the new chain if and only if no spend moved to a lower height; then every balance is that of the replay. |
| `Numbering.NextIndexIsNew` | src/blockindexer.cpp:46-65 | While counters cover what is in use, the next index exceeds every index stored under the prefix and every place an undo list still names. |
| `Numbering.RestartIsSafeIff` | src/blockindexer.cpp:46-65 | Without a counter the next index is above every index stored or named by an undo list if and only if the stored ones are exactly 1 to n and no undo list names a place beyond n. |
| `BlockIndexer.BlockIndexer.GetNextTxoIndex` | src/blockindexer.cpp:46-65 | Returns one more than the cached counter or the number of stored entries, and remembers it. |
| `BlockIndexer.BlockIndexer.ClearBlockTxos` | src/blockindexer.cpp:67-94 | Deletes exactly the entries and markers that the block's undo lists name. |
| `BlockIndexer.BlockIndexer.HasIndexedBlock` | src/blockindexer.cpp:96-108 | Says whether the block stands at that height of the indexed chain. |
| `BlockIndexer.ClearStep` | src/blockindexer.cpp:67-94 | After the undo step nothing of the replaced block is left and every other block's entries are whole. |
| `BlockIndexer.WriteStep` | src/blockindexer.cpp:110-257 | Writing a block's batch lays the store out for the chain with the block at its height, overwrites no entry, and changes the markers by exactly the outgoing and incoming spends. |
| `BlockIndexer.PlacedNames` | src/blockindexer.cpp:67-94 | Once the replaced block's markers are gone, every marker left or added is the block, transaction and input index of an input of the resulting chain that names its outpoint. |
| `BlockIndexer.TxsName` | src/blockindexer.cpp:225-242 | Every marker of a block's batch names the block, the spending transaction and the index of its input. |
| `BlockIndexer.IndexedIsConsistent` | src/blockindexer.cpp:110-257 | What sending a block does to store and counters keeps the store laid out for the chain, with exactly the outgoing and incoming spends marked, if the block can be placed and the numbers it asks for are new. |
| `BlockIndexer.BlockIndexer.IndexBlock` | src/blockindexer.cpp:110-257 | For every store and block, store and counters afterwards are exactly those that the specification names; an accepted block takes its height in the chain and the store stays consistent with it, entries and marker values included; its transactions leave the mempool; a block already there changes nothing. |
| `Credits.EntryIff` | src/blockindexer.cpp:196-223 | The entries of an address are exactly the outputs of the chain that pay it, each with its outpoint, its block's height and its value. |
| `BlockIndexer.BlockIndexer.Reopen` | src/blockindexer.cpp:34-65 | A new process on an existing database, without counters, is consistent with the same chain. |
| `Restart.HistoryIsRight` | src/blockindexer.cpp:34-257 | After any sequence of blocks and restarts in which every block is accepted, the store holds exactly the credits and markers of the resulting chain, and each marker's value is that of an input of the chain. |
| `Restart.OneProcessIsAccepted` | src/blockindexer.cpp:34-65 | Without a restart every block that can be placed is accepted, through any reorganisations. |
| `Restart.ReopenedAcceptsIff` | src/blockindexer.cpp:46-65 | Right after a restart a block that can be placed is accepted if and only if its two undo lists and the addresses it credits are dense. |
| `Restart.GrowingIsAccepted` | src/blockindexer.cpp:46-65 | While blocks only come on top of the chain every block is accepted, wherever restarts come. |
| `RestartLoss.RestartLosesCredit` | src/blockindexer.cpp:46-94 | A concrete history across a restart whose blocks can all be placed: a number is handed out that an old undo list names, and in the end a live credit is gone. |
| `IndexStore.ClearRow` | src/blockindexer.cpp:67-94 | Clearing one block takes that block's credits away and leaves every other block's credits in place. |
| `IndexStore.WriteRow` | src/blockindexer.cpp:200-257 | A batch with fresh places fills an empty row and leaves every other row whole. |
| `Reorg.StepAgreesIff` | src/blockindexer.cpp:110-135 | One call keeps the markers right if and only if nothing that only the outgoing block spends is spent elsewhere on the chain. |
| `Reorg.RunKeeps` | src/blockindexer.cpp:67-94 | Over a whole run a marker is left if and only if some block set it and no later call undid it. |
| `Reorg.ReorgAgreesIff` | src/blockindexer.cpp:67-94 | A reorganisation from a fork height up to at least the old tip leaves the right markers if and only if no new block spends what a replaced block at a greater height spent. |
| `Reorg.TipOnlyNeedsNoProviso` | src/blockindexer.cpp:67-94 | Extending the chain or replacing only the tip always meets that condition. |
| `Reorg.SpendMovedDown` | src/blockindexer.cpp:67-94 | A concrete pair of valid chains on which a spend moves down one height: its marker is lost, and a spent coin counts as unspent. |
| `Reorg.HistoryGivesReplay` | src/blockindexer.cpp:110-257 | Over every history of such updates from an index with the right markers, created outputs without markers are the plain replay of the final chain. |
| `Reorg.SpentMarkerIff` | src/blockindexer.cpp:225-242 | On a valid chain with the right markers, an outpoint's marker is (block, transaction, index) if and only if that input of the chain spends it. |
| `Ledger.ReplayIsCreatedMinusSpent` | src/httpserver.cpp:562-585 | The plain replay equals everything created, in order, without everything spent; every spend is of a created output and is its only spend. |
| `HttpServer.TotalVisit` | src/httpserver.cpp:562-585 | Visiting one entry of the address takes exactly its value off what remains, so any scan order gives the same sum. |
| `HttpServer.AddressBalance` | src/httpserver.cpp:545-603 | The two balances, as the worth of the created outputs that neither marker nor mempool spends, plus what the mempool pays. |
| `HttpServer.BalanceIsReplay` | src/httpserver.cpp:562-585 | On a valid chain with the right markers the balance is the address's balance after the plain replay. |
| `HttpServer.UnconfirmedIsReplay` | src/httpserver.cpp:562-603 | The unconfirmed balance is that of replaying the chain and then the mempool in any order that respects dependencies. |
| `HttpServer.OutpointSpend` | src/httpserver.cpp:766-817 | An output is spent if the chain or, when asked for, the mempool spends it; the spender is the one transaction of the chain that does, or else one of the mempool. |
| `MempoolMonitor.MempoolMonitor.AddTransaction` | src/mempoolmonitor.cpp:44-70 | Under any key: a new one is stored and the outputs of its transaction join the lists of the addresses they pay, a known one changes nothing; with the transaction's hash as key every list stays the list of outputs that held transactions pay. |
| `MempoolMonitor.MempoolMonitor.TransactionIndexed` | src/mempoolmonitor.cpp:109-135 | The hash, and all outputs of a transaction with that hash, leave the map and every address list; nothing else does. |
| `MempoolMonitor.NotOfPaidTo` | src/mempoolmonitor.cpp:109-135 | Filtering an address list by transaction gives the list of the remaining transactions, in order. |
| `MempoolMonitor.MempoolMonitor.OutpointSpend` | src/mempoolmonitor.cpp:80-90 | Returns a held transaction with an input that names the outpoint, and the empty string if and only if there is none. |
| `MempoolMonitor.MempoolMonitor.GetTxos` | src/mempoolmonitor.cpp:101-107 | The outputs that held transactions pay the address, each as often as its script names it. |
| `DoubleSpends.AnalyzeDoubleBlocks` | src/blockfilewatcher.cpp:287-432 | Whatever the map order, each outpoint is reported under each conflict as often as its collected spends ask, and all that is reported are records of supplied blocks; when nothing is supplied twice and the main chain spends nothing twice, that is once for every conflict and never otherwise. |
| `DoubleSpends.SpendsInIff` | src/blockfilewatcher.cpp:291-320 | The spends collected for an outpoint are exactly those by transactions of the supplied blocks with an input that names it and is not a coinbase. |
| `DoubleSpends.ReportIff` | src/blockfilewatcher.cpp:325-432 | An outpoint is due once under a conflict if a main-chain block spends it in the one transaction and another block in the other, and not at all otherwise, when every block, transaction and input is supplied once and the main chain spends it at most once. |
| `DoubleSpends.GroupIsClass` | src/blockfilewatcher.cpp:325-432 | The outpoints of a group are all of those reported under its conflict: groups are conflict classes. |
| `Base58.Fits` | src/utility.cpp:187-187 | 256^n < 58^(n * 138 / 100 + 1) for every n: the buffer always suffices. |
| `Base58.ApplyByte` | src/utility.cpp:192-203 | One byte multiplies the number in the buffer by 256 and adds the byte, digits beyond the length staying zero, any excess in the carry. |
| `Base58.NoCarry` | src/utility.cpp:192-205 | In a buffer of that size the carry is zero after every byte, and the buffer is the number of the bytes so far. |
| `Base58.Base58` | src/utility.cpp:173-217 | The text is a one for each leading zero byte and then the base-58 digits of the number that the bytes stand for. |
| `Base58.EncodeIff` | src/utility.cpp:173-217 | The text of a byte sequence is the only one in the alphabet whose digits have the bytes' number, and as many leading zero digits as there are leading zero bytes. |
| `Base58.DecodeIff` | src/utility.cpp:173-217 | A reader of base-58 text gives a byte sequence if and only if the text is its encoding. |
| `Base58.AlphabetIs` | src/utility.cpp:173-217 | The alphabet, written out. |
| `Base58.EncodeIsInjective` | src/utility.cpp:173-217 | Two byte sequences never have the same text. |
| `Base58.EncodeLength` | src/utility.cpp:187-187 | The text is at most as long as the buffer and the leading ones. |
| `Vectors.Base58Vector` | src/utility.cpp:173-217 | The bytes 00 00 28 7f b4 cd have the text 11233QC4. |
| `ConvertBits.MaskKeepsPending` | src/utility.cpp:48-53 | The accumulator mask drops no pending bit. |
| `ConvertBits.ConvertBits` | src/utility.cpp:43-64 | With padding the groups are the input's bits filled up by as few zero bits as possible; without, conversion succeeds if and only if the rest is short and zero. |
| `ConvertBits.RoundTrip` | src/utility.cpp:43-64 | Conversion to narrower groups with padding and back without, as from 8 to 5 bits, is accepted and gives back every sequence. |
| `ConvertBits.AcceptedIff` | src/utility.cpp:43-64 | Conversion back to wider groups accepts exactly the padded forms: it succeeds if and only if padding its result gives the groups it was given. |
| `ConvertBits.PaddedLength` | src/utility.cpp:43-64 | The padded output of n bytes has ceil(8n / 5) groups. |
| `Bech32.StepIsLinear` | src/crypto/bech32.cpp:41-98 | One step of the packed checksum is linear over exclusive or. |
| `Polynomials.MultiplyCommutes` | src/crypto/bech32.cpp:55-62 | The multiplication is commutative, and {5} times {26} is {9}. |
| `Polynomials.StepIsDivision` | src/crypto/bech32.cpp:41-98 | One step is one step of the division by the generator over the field with 32 elements: the state times x plus the group is the top coefficient times the generator plus the next state. |
| `Bech32.PolyMod` | src/crypto/bech32.cpp:41-98 | The loop is the fold of that step. |
| `Polynomials.PolyModIff` | src/crypto/bech32.cpp:41-98 | The six groups of the checksum state are the remainder of the polynomial with a 1 in front of the input, and nothing else is a remainder of it. |
| `Polynomials.PassesIff` | src/crypto/bech32.cpp:122-129 | A text passes if and only if the remainder of the expanded readable part and the values is 1. |
| `Bech32.BurstIsDetected` | src/crypto/bech32.cpp:122-129 | Two sequences of one length that differ only within six consecutive groups never both pass, at any length and under any readable part. |
| `Bech32.ChecksumIff` | src/crypto/bech32.cpp:132-143 | Six groups complete a sequence to one that passes if and only if they are its checksum. |
| `Bech32.CreateChecksum` | src/crypto/bech32.cpp:132-143 | Computes those six groups. |
| `Bech32.Decode` | src/crypto/bech32.cpp:164-194 | Accepts exactly the printable texts of one case, of length up to 90, with a separator, six groups behind it, known characters and a right checksum. |
| `Bech32.DecodeEncodeIff` | src/crypto/bech32.cpp:151-194 | Decoding an encoding gives back exactly what went in if and only if the readable part is not empty, printable, without upper case, and the text at most 90 long. |
| `Bech32.EncodeDecode` | src/crypto/bech32.cpp:151-194 | Whatever decodes is, in lower case, the encoding of its result. |
| `Vectors.Bech32Vector` | src/crypto/bech32.cpp:151-161 | The values 0 to 31 under the readable part abcdef have the text that BIP 173 lists. |
| `Addresses.RipeMD160ToAddress` | src/utility.cpp:141-151 | The address is the base-58 text of version, hash and the first four bytes of their double hash. |
| `Addresses.ReadAddressIff` | src/utility.cpp:141-151 | A reader that checks the last four bytes against the double hash of the others accepts a text as version and hash if and only if it is their address. |
| `Addresses.Bech32Address` | src/utility.cpp:219-228 | The address is the Bech32 text of version zero and the program in padded five-bit groups. |
| `Addresses.Base58AddressIsInjective` | src/utility.cpp:141-151 | Equal base-58 addresses mean equal version and equal hash. |
| `Addresses.Bech32AddressIsInjective` | src/utility.cpp:219-228 | Equal Bech32 addresses of one coin mean equal witness programs. |
| `Addresses.FamiliesAreDisjoint` | src/utility.cpp:173-228 | A base-58 address has at most 35 characters and a Bech32 one at least 41, so they never meet. |
| `ScriptSolver.GetScriptType` | src/scriptsolver.cpp:35-196 | A script has the type of the first pattern it matches; one that starts with 0x6A is nulldata if and only if pushes of 1 to 75 bytes lead to its end. |
| `ScriptSolver.NullDataIff` | src/scriptsolver.cpp:128-149 | A script is nulldata if and only if behind 0x6A there are pushes of 1 to 75 bytes and nothing else, the last of which may be cut short. |
| `ScriptSolver.TypeHasTemplate` | src/scriptsolver.cpp:35-126 | Whatever has a type for one key, hash or program is built from a template of that type. |
| `ScriptSolver.MultiSigIff` | src/scriptsolver.cpp:151-153 | Multisig scripts are those that end in the check opcode, unless they are data or from such a template. |
| `ScriptSolver.NonstandardIff` | src/scriptsolver.cpp:156-193 | The known nonstandard scripts are single pushes of three sizes and two oddities, unless they end in the check opcode. |
| `ScriptSolver.MultiSigIsWalked` | src/scriptsolver.cpp:35-153 | Every well-formed multisig script has that type, and its walk stays in bounds, ends two before the end, and meets exactly its keys in order. |
| `ScriptSolver.WalkMultiSig` | src/scriptsolver.cpp:241-256 | The loop yields the addresses of the keys of the walk in order, or nothing when the walk leaves the script. |
| `ScriptSolver.GetAddressesFromScript` | src/scriptsolver.cpp:205-276 | The addresses of each type of script, and none for the types without. |
| `ScriptSolver.AddressNamesOne` | src/scriptsolver.cpp:205-276 | An address text stands for one destination: one version and hash, or one witness program, across both families. |
| `ScriptSolver.TemplateHasAddress` | src/scriptsolver.cpp:205-276 | A script built to pay a key hash, a key, a script hash, a witness program or a one-key multisig has the type of its kind and exactly one address, that of its destination. |
| `ScriptSolver.MultiSigHasAddresses` | src/scriptsolver.cpp:241-256 | A multisig script has one address for each key, in order, that of the key. |
| `ScriptSolver.SameAddressSameDestination` | src/scriptsolver.cpp:205-276 | Two such scripts with the same address pay the same destination. |
| `Bytes.ReverseHexIsInjective` | src/utility.cpp:87-95 | No two hashes have the same reversed hexadecimal text. |
| `Bytes.ReverseHexIff` | src/utility.cpp:87-95 | The text of a hash is the one that reads, two lower-case hexadecimal characters for a byte, as its bytes from the last to the first. |
| `BlockReader.HashTextIff` | src/blockreader.cpp:51-200 | A text is the identity of some bytes if and only if it reads as their double hash, last byte first. |
| `Bytes.ZeroHashIff` | src/blockreader.cpp:129-129 | The text of 64 zeroes stands for 32 zero bytes and for nothing else. |
| `Bytes.LittleEndianIsReversed` | src/filereader.cpp:32-61 | A number is read with its last byte as the most significant. |
| `FileReader.ReadVarInt` | src/filereader.cpp:32-61 | Reads what the variable-length number at the cursor says and advances behind it, or fails at the end of the file. |
| `FileReader.ReadString` | src/filereader.cpp:69-79 | Reads a length and that many bytes. |
| `FileReader.VarIntAt` | src/filereader.cpp:32-61 | The shortest encoding of every 64-bit number is read back, at every position. |
| `FileReader.VarIntIsShortest` | src/filereader.cpp:32-61 | Whatever is read as a number took at least the bytes of its shortest encoding. |
| `Vectors.VarIntVectors` | src/filereader.cpp:32-61 | The encodings at the bounds of the four forms, written out. |
| `BlockReader.ReadTransaction` | src/blockreader.cpp:97-200 | With its lookahead, rewind and second reading, the method returns the transaction that parsing at the cursor defines and leaves the cursor at its end. |
| `BlockReader.ReadBlock` | src/blockreader.cpp:51-95 | Returns the block that parsing at the position defines, with or without its transactions, or nothing when the file is too short. |
| `Serialization.MarkerIff` | src/blockreader.cpp:106-114 | The two bytes behind the version are taken for the witness marker if and only if it was written or there are outputs but no inputs. |
| `Serialization.ReadInvertsSerialize` | src/blockreader.cpp:97-200 | Wherever a serialized transaction lies, with or without witness data, reading gives it back with its position and size; txid and wtxid hash the witness-free and the full serialization. |
| `Serialization.ReadInvertsSerializeIff` | src/blockreader.cpp:106-114 | This holds if and only if the extended form was used, or there is an input, or there is no output. |
| `Serialization.ReadBlockInvertsSerialize` | src/blockreader.cpp:51-95 | A serialized block is read back with its header fields, hash, exact size, and all transactions at their positions. |
| `BlockScanner.BlockScanner.ScanNextBlock` | src/blockscanner.cpp:62-84 | Yields the next block of the scan and moves to the next record, by the 32-bit difference that the source skips; a record that breaks off is filled with zeroes. |
| `BlockScanner.BlockScanner.ScanFile` | src/blockscanner.cpp:47-84 | The loop over a file yields the whole scan and ends. |
| `BlockScanner.ScanYieldsRecords` | src/blockscanner.cpp:47-84 | A file of records with a tail that does not begin with the magic number yields each block once, in order, at its position. |
| `BlockScanner.BrokenRecord` | src/blockscanner.cpp:62-84 | A last record that breaks off inside its header is taken for a block whose header ends in zeroes. |
| `BlockScanner.ScannedIsRead` | src/blockreader.cpp:51-95 | At every scanned position the reader finds the same hash and predecessor, the full transaction list, and a size equal to that of the record. |
| `FromFiles.FilesAreFaithful` | src/blockfilewatcher.cpp:197-205 | Over any number of files of serialized blocks, the reader gives back every scanned block under its hash, at whatever height it is asked for, and one hash has one list of spends. |
| `FromFiles.DirectoriesGrow` | src/blockfilewatcher.cpp:51-145 | States of a directory whose files only grow are what a sequence of updates asks for, read from the last of them. |
| `Ripemd160.CRIPEMD160.Write` | src/crypto/ripemd160.cpp:247-271 | The hasher has read the message so far and the new bytes: whole blocks compressed, the rest in the buffer. |
| `Ripemd160.CRIPEMD160.MessageDetermines` | src/crypto/ripemd160.cpp:247-271 | However a message was cut into writes, state, count and the live part of the buffer are the same. |
| `Ripemd160.CRIPEMD160.Finalize` | src/crypto/ripemd160.cpp:273-285 | The hash is the fold over the padded message, and no byte is left waiting. |
| `Ripemd160.PaddedIsShortest` | src/crypto/ripemd160.cpp:273-285 | The padding is a one bit, zeroes, and the length, exact below 2^61 bytes, and no shorter one holds these. |
| `Ripemd160.OutputByte` | src/crypto/ripemd160.cpp:280-284 | The hash has the five words in order, each from its lowest byte up. |
| `Ripemd160.OutputOfInitial` | src/crypto/ripemd160.cpp:24-31 | The bytes of the start state, written out. |

## Left out

- HTTP routing, sessions, JSON, and every handler but `addressBalance`, without its transaction counters, and
  `outpointSpend`.
- HttpServer.OutpointSpend: without the check that the transaction is known, the spender's height, and its raw form,
  which come from metadata keys and from the node.
- The RPC client, directory polling, sleeping and threads: each watcher iteration is one call, and calls do not overlap.
- LevelDB: a finite map with atomic batches. Keys are structured, so the eight-digit fields and the limit of 99999999
  per prefix are assumed not to overflow. Range scans visit their keys in an arbitrary order.
- A crash between the undo batch and the write batch of `indexBlock`. Restarts between blocks are modelled; what can go
  wrong after one is `RestartLoss.RestartLosesCredit`.
- Metadata keys that no reorganisation undoes (`block-time`, file positions, address lists, `multisigtx`).
- SHA-256, the RIPEMD-160 rounds and key decompression: functions of fixed output length.
- The report of reorganised coinbase outputs and of transactions missing from the main chain, and the splitting of
  `doubleBlocks` into runs: the conflict report takes `doubleBlocks` as input. Its split outpoint keys are structured.
- BlockIndexer.BlockIndexer.IndexBlock: that the store stays consistent is promised for blocks that continue the chain
  or replace one of its blocks, whose hash stands at no other height and never came with other spends, and for which
  every number is new. For other blocks only the exact effect on store, counters and mempool is stated.
- BlockFileWatcher.BlockFileWatcher.FindLongestChain: asks for at least one candidate and for no empty list from its
  level on, since the source indexes element zero; both walks meet this.
- BlockFileWatcher.BlockFileWatcher.UpdateIndex: takes a reader as `FromFiles.FilesAreFaithful` proves it, and an index
  that was built from scans within this one, as every update leaves it. After a restart it is specified for chains that
  continue the indexed one, since numbers may clash otherwise.
- BlockFileWatcher.BlockFileWatcher.RunUpdates: one process; restarts are treated block by block in `Restart`.
- Reorg.HistoryGivesReplay: histories in which the longest chain never gets shorter, as `RunUpdates` proves of files
  that only grow, and in which no two transactions of a chain share a hash.
- DoubleSpends.ReportIff: for outpoints that the main chain spends at most once; with several only the first counts, as
  the contract of `AnalyzeDoubleBlocks` says in general.
- MempoolMonitor.MempoolMonitor.AddTransaction: for a key that is not the transaction's hash only the exact effect on
  map and lists is stated.
- BlockReader.ReadTransaction: on a file that ends inside a transaction the source goes on with fields it never set; the
  model stops and fails.
- BlockReader.ReadBlock: the exit when a file cannot be opened, and positions beyond 2^31 in the block record.
- ScriptSolver.GetAddressesFromScript: where the source reads behind the end of a malformed multisig script, the model
  returns nothing.
- `nulldata` payload decoding, `cxxopts.hpp`, command line, coin configuration and the user interface.

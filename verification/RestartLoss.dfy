/** A history across a restart in which a live credit is lost: every block can be placed, but after the restart one
    number is handed out again that an old undo list still names. */
module RestartLoss {
  import opened BlockchainTypes
  import opened Ledger
  import opened IndexStore
  import opened Numbering
  import opened BlockIndexer
  import opened Restart

  /** Every output pays the same address. */
  function PayA(script: Script): seq<Address> {
    ["A"]
  }

  const A := AddressTxo("A")

  /** A block with one output, and one without transactions. */
  function Paying(hash: Hash, height: nat): Block {
    var tx := Transaction([], [TransactionOutput(50, [], 0)], hash, hash, 0, 0, 1, 0);
    Block("", 0, hash, "", "", height, 0, 0, 0, 0, 1, [tx], true)
  }

  function Plain(hash: Hash, height: nat): Block {
    Block("", 0, hash, "", "", height, 0, 0, 0, 0, 1, [], true)
  }

  function Credit(hash: Hash, height: nat): TxoRecord {
    TxoRecord(Outpoint(hash, 0), height, 50)
  }

  lemma PaysOnce(block: Block, hash: Hash, height: nat)
    requires block == Paying(hash, height)
    ensures block.blockHash == hash && block.height == height && |block.transactions| == 1 &&
      block.transactions[0].inputs == []
    ensures AllPays(Creates(block.transactions[0]), PayA) == [Pay("A", Txo(Outpoint(block.blockHash, 0), 50, []))]
    ensures AllCreates(block.transactions) == Creates(block.transactions[0]) == [Txo(Outpoint(hash, 0), 50, [])]
  {
    var u := Txo(Outpoint(block.blockHash, 0), 50, []);
    assert Creates(block.transactions[0]) == [u];
    assert [u][..0] == [] && block.transactions[..0] == [];
    assert AllPays([u], PayA) == PaysTo(u, PayA([]));
  }

  /** What a paying block does: one entry at the next number n of the address, named by number m of its undo list. */
  lemma PayingIndexed(p: Counted, hash: Hash, height: nat, n: nat, m: nat)
    requires !(height in p.store.blockAt && p.store.blockAt[height] == hash)
    requires n == NextIndex(MakeRoom(p.store, Paying(hash, height)), p.counters, A)
    requires m == NextIndex(MakeRoom(p.store, Paying(hash, height)), p.counters, BlockTxo(hash))
    ensures var room, after := MakeRoom(p.store, Paying(hash, height)), Indexed(p, Paying(hash, height), PayA);
      && after.store.blockAt == room.blockAt[height := hash] && after.store.marks == room.marks
      && after.store.txos.entries == room.txos.entries[Place("A", n) := Credit(hash, height)]
      && after.store.txos.undo == room.txos.undo[UndoKey(hash, m) := Place("A", n)]
      && after.counters == p.counters[A := n][BlockTxo(hash) := m]
  {
    hide MakeRoom, NextIndex, PutTxs, Indexed, IsIndexed, Paying, PayA, Written;
    var block := Paying(hash, height);
    var room, empty := MakeRoom(p.store, block), Counted(EMPTY.(blockAt := map[height := hash]), p.counters);
    PaysOnce(block, hash, height);
    SameNext(room, p.counters, n, BlockTxo(hash));
    IndexedIs(p, block, PayA);
    OneCredit(room, empty, hash, height);
    WrittenOne(room, PutTxs(room, empty, block, 1, PayA).store, hash, height, n, m);
  }

  lemma WrittenOne(db: Store, batch: Store, hash: Hash, height: nat, n: nat, m: nat)
    requires batch.blockAt == map[height := hash] && batch.marks == EMPTY.marks
    requires batch.txos == Txos(map[Place("A", n) := Credit(hash, height)], map[UndoKey(hash, m) := Place("A", n)])
    ensures var after := Written(db, batch);
      && after.blockAt == db.blockAt[height := hash] && after.marks == db.marks
      && after.txos.entries == db.txos.entries[Place("A", n) := Credit(hash, height)]
      && after.txos.undo == db.txos.undo[UndoKey(hash, m) := Place("A", n)]
  {
    hide Txos.Write, Marks.Write;
    WriteOne(db.txos, Place("A", n), Credit(hash, height), UndoKey(hash, m));
    assert db.marks.Write(batch.marks) == db.marks by {
      WriteNoMarks(db.marks);
    }
  }

  lemma WriteOne(t: Txos, k: Place, record: TxoRecord, e: UndoKey)
    ensures t.Write(Txos(map[k := record], map[e := k])) == Txos(t.entries[k := record], t.undo[e := k])
  {
    assert t.entries + map[k := record] == t.entries[k := record];
    assert t.undo + map[e := k] == t.undo[e := k];
  }

  lemma WriteNoMarks(marks: Marks)
    ensures marks.Write(EMPTY.marks) == marks
  {
  }

  lemma OneCredit(db: Store, p: Counted, hash: Hash, height: nat)
    ensures PutTxs(db, p, Paying(hash, height), 1, PayA) ==
      PutCredit(db, p, Paying(hash, height), Pay("A", Txo(Outpoint(hash, 0), 50, [])))
  {
    hide PutCredit, Paying, PayA, Creates, AllPays;
    var block, pay := Paying(hash, height), Pay("A", Txo(Outpoint(hash, 0), 50, []));
    PaysOnce(block, hash, height);
    var tx := block.transactions[0];
    assert [pay][..0] == [];
    assert PutCredits(db, p, block, [pay]) == PutCredit(db, p, block, pay);
    assert PutTxs(db, p, block, 0, PayA) == p;
    var q := PutCredits(db, p, block, [pay]);
    assert PutSpends(db, q, block, tx, 0) == q;
    assert PutTxs(db, p, block, 1, PayA) ==
      PutSpends(db, PutCredits(db, PutTxs(db, p, block, 0, PayA), block, AllPays(Creates(tx), PayA)), block, tx, 0);
  }

  lemma SameNext(db: Store, c: Counters, n: nat, prefix: Prefix)
    requires prefix != A
    ensures NextIndex(db, c[A := n], prefix) == NextIndex(db, c, prefix)
  {
  }

  lemma PlainIndexed(p: Counted, hash: Hash, height: nat)
    requires !(height in p.store.blockAt && p.store.blockAt[height] == hash)
    ensures var room, after := MakeRoom(p.store, Plain(hash, height)), Indexed(p, Plain(hash, height), PayA);
      && after.store.blockAt == room.blockAt[height := hash] && after.store.marks == room.marks
      && after.store.txos == room.txos && after.counters == p.counters
  {
    hide MakeRoom;
  }

  /** The room for a block: what the block at its height named is deleted. */
  lemma RoomFor(db: Store, block: Block)
    ensures var room := MakeRoom(db, block);
      && room.blockAt == db.blockAt && room.txos.undo == db.txos.undo
      && (block.height !in db.blockAt ==> room.txos == db.txos)
      && (block.height in db.blockAt ==>
            room.txos.entries == db.txos.entries - db.txos.Named(db.blockAt[block.height]))
  {
  }

  /** Two blocks that pay the address, and two that replace them. */
  const U0: map<UndoKey, Place> := map[UndoKey("Y", 1) := Place("A", 1), UndoKey("X", 1) := Place("A", 2)]

  lemma FirstPays(p0: Counted, p1: Counted, p2: Counted)
    requires p0 == Counted(EMPTY, map[])
    requires p1 == Indexed(p0, Paying("Y", 0), PayA) && p2 == Indexed(p1, Paying("X", 1), PayA)
    ensures p2.store.blockAt == map[0 := "Y", 1 := "X"] && p2.store.txos.undo == U0
    ensures p2.store.txos.entries == map[Place("A", 1) := Credit("Y", 0), Place("A", 2) := Credit("X", 1)]
  {
    hide Indexed, MakeRoom;
    RoomFor(p0.store, Paying("Y", 0));
    PayingIndexed(p0, "Y", 0, 1, 1);
    RoomFor(p1.store, Paying("X", 1));
    PayingIndexed(p1, "X", 1, 2, 1);
  }

  /** Their replacements, which do not pay: the entries go, the undo lists stay. */
  lemma ThenReplaced(p2: Counted, p3: Counted, p4: Counted)
    requires p2.store.blockAt == map[0 := "Y", 1 := "X"] && p2.store.txos.undo == U0
    requires p2.store.txos.entries == map[Place("A", 1) := Credit("Y", 0), Place("A", 2) := Credit("X", 1)]
    requires p3 == Indexed(p2, Plain("Y'", 0), PayA) && p4 == Indexed(p3, Plain("X'", 1), PayA)
    ensures p4.store.blockAt == map[0 := "Y'", 1 := "X'"] && p4.store.txos == Txos(map[], U0)
  {
    hide Indexed, MakeRoom;
    RoomFor(p2.store, Plain("Y'", 0));
    PlainIndexed(p2, "Y'", 0);
    assert p2.store.txos.Named("Y") == {Place("A", 1)} by {
      assert UndoKey("Y", 1) in U0;
    }
    RoomFor(p3.store, Plain("X'", 1));
    PlainIndexed(p3, "X'", 1);
    assert p3.store.txos.Named("X") == {Place("A", 2)} by {
      assert UndoKey("X", 1) in U0;
    }
  }

  /** After the restart the address starts again at number one, which the list of Y still names. */
  lemma NotDense(db: Store)
    requires db.txos == Txos(map[], U0)
    ensures !Dense(db, A) && Indices(db, A) == {} && 1 in InUse(db, A)
  {
    var e := UndoKey("Y", 1);
    assert e in db.txos.undo && db.txos.undo[e] == Place("A", 1);
    assert db.txos.undo[e].index in InUse(db, A);
  }

  const U1: map<UndoKey, Place> := U0[UndoKey("W", 1) := Place("A", 1)]
  const U2: map<UndoKey, Place> := U1[UndoKey("Y", 2) := Place("A", 2)]
  const U3: map<UndoKey, Place> := U2[UndoKey("X", 2) := Place("A", 3)]

  lemma PlainIs(hash: Hash, height: nat)
    ensures Plain(hash, height).height == height
  {
  }

  lemma OneNamed(t: Txos, hash: Hash, n: nat, k: Place)
    requires UndoKey(hash, n) in t.undo && t.undo[UndoKey(hash, n)] == k
    requires forall e :: e in t.undo && e.hash == hash ==> e.index == n
    ensures t.Named(hash) == {k}
  {
  }

  lemma NothingNamed(t: Txos, hash: Hash)
    requires forall e :: e in t.undo ==> e.hash != hash
    ensures t.Named(hash) == {}
  {
  }

  lemma NewOnTop(q0: Counted, q1: Counted)
    requires q0.store.blockAt == map[0 := "Y'", 1 := "X'"] && q0.store.txos == Txos(map[], U0) && q0.counters == map[]
    requires q1 == Indexed(q0, Paying("W", 2), PayA)
    ensures q1.store.blockAt == map[0 := "Y'", 1 := "X'", 2 := "W"] && q1.store.txos.undo == U1
    ensures q1.store.txos.entries == map[Place("A", 1) := Credit("W", 2)]
    ensures q1.counters == map[A := 1, BlockTxo("W") := 1]
  {
    hide Indexed, MakeRoom;
    RoomFor(q0.store, Paying("W", 2));
    PayingIndexed(q0, "W", 2, 1, 1);
  }

  lemma OneUndo(db: Store, hash: Hash)
    requires UndoKey(hash, 1) in db.txos.undo && forall e :: e in db.txos.undo && e.hash == hash ==> e.index == 1
    ensures Indices(db, BlockTxo(hash)) == {1}
  {
    assert UndoKey(hash, 1).index in Indices(db, BlockTxo(hash));
  }

  /** A block that paid once before is indexed again, over one that named nothing. */
  lemma PaysAgain(p: Counted, hash: Hash, height: nat, n: nat)
    requires height in p.store.blockAt && p.store.blockAt[height] != hash
    requires UndoKey(hash, 1) in p.store.txos.undo && A in p.counters && p.counters[A] == n &&
      BlockTxo(hash) !in p.counters
    requires forall e :: e in p.store.txos.undo && e.hash == hash ==> e.index == 1
    requires forall e :: e in p.store.txos.undo ==> e.hash != p.store.blockAt[height]
    ensures var after := Indexed(p, Paying(hash, height), PayA);
      && after.store.blockAt == p.store.blockAt[height := hash]
      && after.store.txos.entries == p.store.txos.entries[Place("A", n + 1) := Credit(hash, height)]
      && after.store.txos.undo == p.store.txos.undo[UndoKey(hash, 2) := Place("A", n + 1)]
      && after.counters == p.counters[A := n + 1][BlockTxo(hash) := 2]
  {
    hide Indexed, MakeRoom, Txos.Named, Credit;
    var room := MakeRoom(p.store, Paying(hash, height));
    RoomFor(p.store, Paying(hash, height));
    NothingNamed(p.store.txos, p.store.blockAt[height]);
    OneUndo(room, hash);
    hide Indices;
    PayingIndexed(p, hash, height, n + 1, 2);
  }

  lemma ListsBefore()
    ensures UndoKey("Y", 1) in U1 && forall e :: e in U1 ==> e.index == 1 && e.hash != "Y'"
  {
  }

  lemma BackToY(q1: Counted, q2: Counted)
    requires q1.store.blockAt == map[0 := "Y'", 1 := "X'", 2 := "W"] && q1.store.txos.undo == U1
    requires q1.store.txos.entries == map[Place("A", 1) := Credit("W", 2)]
    requires q1.counters == map[A := 1, BlockTxo("W") := 1] && q2 == Indexed(q1, Paying("Y", 0), PayA)
    ensures q2.store.blockAt == map[0 := "Y", 1 := "X'", 2 := "W"] && q2.store.txos.undo == U2
    ensures q2.store.txos.entries == map[Place("A", 1) := Credit("W", 2), Place("A", 2) := Credit("Y", 0)]
    ensures A in q2.counters && q2.counters[A] == 2 && BlockTxo("X") !in q2.counters
  {
    hide Indexed, Credit, Paying, U1;
    ListsBefore();
    PaysAgain(q1, "Y", 0, 1);
  }

  lemma BackToX(q2: Counted, q3: Counted)
    requires q2.store.blockAt == map[0 := "Y", 1 := "X'", 2 := "W"] && q2.store.txos.undo == U2
    requires q2.store.txos.entries == map[Place("A", 1) := Credit("W", 2), Place("A", 2) := Credit("Y", 0)]
    requires A in q2.counters && q2.counters[A] == 2 && BlockTxo("X") !in q2.counters
    requires q3 == Indexed(q2, Paying("X", 1), PayA)
    ensures q3.store.blockAt == map[0 := "Y", 1 := "X", 2 := "W"] && q3.store.txos.undo == U3
    ensures q3.store.txos.entries ==
      map[Place("A", 1) := Credit("W", 2), Place("A", 2) := Credit("Y", 0), Place("A", 3) := Credit("X", 1)]
  {
    hide Indexed, Credit, Paying;
    PaysAgain(q2, "X", 1, 2);
  }

  lemma ListOfW()
    ensures UndoKey("W", 1) in U3 && U3[UndoKey("W", 1)] == Place("A", 1)
    ensures forall e :: e in U3 && e.hash == "W" ==> e.index == 1
  {
  }

  lemma OtherOnTop(q3: Counted, q4: Counted)
    requires q3.store.blockAt == map[0 := "Y", 1 := "X", 2 := "W"] && q3.store.txos.undo == U3
    requires q3.store.txos.entries ==
      map[Place("A", 1) := Credit("W", 2), Place("A", 2) := Credit("Y", 0), Place("A", 3) := Credit("X", 1)]
    requires q4 == Indexed(q3, Plain("V", 2), PayA)
    ensures q4.store.blockAt == map[0 := "Y", 1 := "X", 2 := "V"] && q4.store.txos.undo == U3
    ensures q4.store.txos.entries == map[Place("A", 2) := Credit("Y", 0), Place("A", 3) := Credit("X", 1)]
  {
    hide Indexed, MakeRoom, Credit, Txos.Named, Plain, U3;
    RoomFor(q3.store, Plain("V", 2));
    PlainIs("V", 2);
    ListOfW();
    OneNamed(q3.store.txos, "W", 1, Place("A", 1));
    PlainIndexed(q3, "V", 2);
  }

  /** The old undo list of X names the place that Y has taken since: replacing X deletes the credit of Y. */
  lemma LiveCreditLost(q4: Counted, q5: Counted)
    requires q4.store.blockAt == map[0 := "Y", 1 := "X", 2 := "V"] && q4.store.txos.undo == U3
    requires q4.store.txos.entries == map[Place("A", 2) := Credit("Y", 0), Place("A", 3) := Credit("X", 1)]
    requires q5 == Indexed(q4, Plain("X''", 1), PayA)
    ensures q5.store.txos.entries == map[]
  {
    hide Indexed, MakeRoom;
    RoomFor(q4.store, Plain("X''", 1));
    assert q4.store.txos.Named("X") == {Place("A", 2), Place("A", 3)} by {
      assert UndoKey("X", 1) in U3 && U3[UndoKey("X", 1)] == Place("A", 2);
      assert UndoKey("X", 2) in U3 && U3[UndoKey("X", 2)] == Place("A", 3);
    }
    PlainIndexed(q4, "X''", 1);
  }

  // ---------- The history as a whole ----------

  /** Two paying blocks, replaced; a restart; a paying block on top; the two old blocks again; and two replacements. */
  function Life(): (events: seq<Event>)
    ensures |events| == 10
  {
    [Index(Paying("Y", 0)), Index(Paying("X", 1)), Index(Plain("Y'", 0)), Index(Plain("X'", 1)), Reopen,
     Index(Paying("W", 2)), Index(Paying("Y", 0)), Index(Paying("X", 1)), Index(Plain("V", 2)), Index(Plain("X''", 1))]
  }

  function Moment(n: nat): History
    requires n <= 10
  {
    Run(Life()[..n], PayA)
  }

  lemma NextAt(n: nat)
    requires n < 10
    ensures Moment(n + 1) == After(Moment(n), Life()[n], PayA)
  {
    hide Life;
    assert Life()[..n + 1][..n] == Life()[..n];
  }

  /** The store names the blocks of the chain, and nothing was ever spent. */
  ghost predicate Names(h: History) {
    && (forall k: nat :: k in h.p.store.blockAt <==> k < |h.chain|)
    && (forall k :: 0 <= k < |h.chain| ==> h.p.store.blockAt[k] == h.chain[k].blockHash)
    && (forall hash :: hash in h.known ==> h.known[hash] == [])
  }

  /** The block is new at its height, and can be placed. */
  ghost predicate Takes(h: History, block: Block) {
    !IsIndexed(h.p.store, block) && Placeable(h.chain, h.known, block)
  }

  ghost predicate TakesAt(n: nat)
    requires n < 10
  {
    Life()[n].Index? ==> Takes(Moment(n), Life()[n].block)
  }

  lemma Placed(h: History, block: Block)
    requires Names(h) && AllSpends(block.transactions) == [] && block.height <= |h.chain|
    requires forall k :: 0 <= k < |h.chain| ==> h.chain[k].blockHash != block.blockHash
    ensures Takes(h, block)
    ensures var h' := After(h, Index(block), PayA);
      Names(h') && h'.chain == PlaceAt(h.chain, block.height, block) && h'.p == Indexed(h.p, block, PayA)
  {
    hide Indexed, PayA, MarkedAfter, AllSpends;
    NewAtHeight(h, block);
    IndexedNames(h.p, block);
    assert After(h, Index(block), PayA).p == Indexed(h.p, block, PayA);
  }

  lemma NewAtHeight(h: History, block: Block)
    requires Names(h) && AllSpends(block.transactions) == [] && block.height <= |h.chain|
    requires forall k :: 0 <= k < |h.chain| ==> h.chain[k].blockHash != block.blockHash
    ensures !IsIndexed(h.p.store, block) && Placeable(h.chain, h.known, block)
  {
    hide AllSpends;
  }

  lemma IndexedNames(p: Counted, block: Block)
    requires !IsIndexed(p.store, block)
    ensures Indexed(p, block, PayA).store.blockAt == p.store.blockAt[block.height := block.blockHash]
  {
    hide PutTxs, MakeRoom, PayA;
    var batch := EMPTY.(blockAt := map[block.height := block.blockHash]);
    BlockAtStays(MakeRoom(p.store, block), Counted(batch, p.counters), block, |block.transactions|, PayA);
    RoomKeepsBlocks(p.store, block);
  }

  lemma RoomKeepsBlocks(db: Store, block: Block)
    ensures MakeRoom(db, block).blockAt == db.blockAt
  {
  }

  lemma SpendsNothing(hash: Hash, height: nat)
    ensures Paying(hash, height).blockHash == hash == Plain(hash, height).blockHash
    ensures Paying(hash, height).height == height == Plain(hash, height).height
    ensures AllSpends(Paying(hash, height).transactions) == [] == AllSpends(Plain(hash, height).transactions)
  {
    var txs := Paying(hash, height).transactions;
    assert AllSpends(txs[..0]) == [] && Spends(txs[0]) == [];
  }

  lemma PlacedNext(n: nat, pays: bool, hash: Hash, height: nat, chain: seq<Block>)
    requires n < 10 && Life()[n] == Index(if pays then Paying(hash, height) else Plain(hash, height))
    requires Names(Moment(n)) && Moment(n).chain == chain && height <= |chain|
    requires forall k :: 0 <= k < |chain| ==> chain[k].blockHash != hash
    ensures var block := if pays then Paying(hash, height) else Plain(hash, height);
      && TakesAt(n) && Names(Moment(n + 1)) && Moment(n + 1).chain == PlaceAt(chain, height, block)
      && Moment(n + 1).p == Indexed(Moment(n).p, block, PayA)
  {
    hide Life, Moment, After, Names, Takes, Paying, Plain;
    SpendsNothing(hash, height);
    NextAt(n);
    Placed(Moment(n), if pays then Paying(hash, height) else Plain(hash, height));
  }

  lemma StartNames()
    ensures Moment(0) == Start() && Names(Start())
  {
  }

  lemma FirstFour()
    ensures Names(Moment(4)) && Moment(4).chain == [Plain("Y'", 0), Plain("X'", 1)]
    ensures Moment(1).p == Indexed(Moment(0).p, Paying("Y", 0), PayA) &&
      Moment(2).p == Indexed(Moment(1).p, Paying("X", 1), PayA)
    ensures Moment(3).p == Indexed(Moment(2).p, Plain("Y'", 0), PayA) &&
      Moment(4).p == Indexed(Moment(3).p, Plain("X'", 1), PayA)
    ensures forall n :: 0 <= n < 4 ==> TakesAt(n)
  {
    hide Moment, Names, TakesAt, Indexed;
    FirstTwo();
    PlacedNext(2, false, "Y'", 0, [Paying("Y", 0), Paying("X", 1)]);
    PlacedNext(3, false, "X'", 1, [Plain("Y'", 0), Paying("X", 1)]);
  }

  lemma FirstTwo()
    ensures Names(Moment(2)) && Moment(2).chain == [Paying("Y", 0), Paying("X", 1)]
    ensures Moment(1).p == Indexed(Moment(0).p, Paying("Y", 0), PayA)
    ensures Moment(2).p == Indexed(Moment(1).p, Paying("X", 1), PayA)
    ensures TakesAt(0) && TakesAt(1)
  {
    hide Moment, Names, TakesAt, Indexed;
    StartNames();
    PlacedNext(0, true, "Y", 0, []);
    PlacedNext(1, true, "X", 1, [Paying("Y", 0)]);
  }

  lemma FirstLife()
    ensures Names(Moment(5)) && Moment(5).chain == [Plain("Y'", 0), Plain("X'", 1)]
    ensures Moment(5).p.store.txos == Txos(map[], U0) && Moment(5).p.counters == map[]
    ensures forall n :: 0 <= n < 4 ==> TakesAt(n)
  {
    hide Moment, Names, TakesAt, Indexed, Plain, Paying, After;
    StartNames();
    FirstFour();
    FirstPays(Moment(0).p, Moment(1).p, Moment(2).p);
    ThenReplaced(Moment(2).p, Moment(3).p, Moment(4).p);
    NextAt(4);
    ReopenNames(Moment(4));
  }

  lemma ReopenNames(h: History)
    requires Names(h)
    ensures var h' := After(h, Reopen, PayA);
      Names(h') && h'.chain == h.chain && h'.p == Counted(h.p.store, map[])
  {
  }

  /** The blocks after the restart, one by one. */
  lemma LastFive()
    ensures Moment(10).chain == [Paying("Y", 0), Plain("X''", 1), Plain("V", 2)]
    ensures Moment(6).p == Indexed(Moment(5).p, Paying("W", 2), PayA) &&
      Moment(7).p == Indexed(Moment(6).p, Paying("Y", 0), PayA)
    ensures Moment(8).p == Indexed(Moment(7).p, Paying("X", 1), PayA) &&
      Moment(9).p == Indexed(Moment(8).p, Plain("V", 2), PayA)
    ensures Moment(10).p == Indexed(Moment(9).p, Plain("X''", 1), PayA)
    ensures forall n :: 5 <= n < 10 ==> TakesAt(n)
  {
    hide Moment, Names, TakesAt, Indexed, PayA;
    FirstLife();
    PlacedNext(5, true, "W", 2, [Plain("Y'", 0), Plain("X'", 1)]);
    PlacedNext(6, true, "Y", 0, [Plain("Y'", 0), Plain("X'", 1), Paying("W", 2)]);
    PlacedNext(7, true, "X", 1, [Paying("Y", 0), Plain("X'", 1), Paying("W", 2)]);
    PlacedNext(8, false, "V", 2, [Paying("Y", 0), Paying("X", 1), Paying("W", 2)]);
    PlacedNext(9, false, "X''", 1, [Paying("Y", 0), Paying("X", 1), Plain("V", 2)]);
  }

  lemma SecondLife()
    ensures Moment(10).chain == [Paying("Y", 0), Plain("X''", 1), Plain("V", 2)]
    ensures Moment(10).p.store.txos.entries == map[]
    ensures forall n :: 5 <= n < 10 ==> TakesAt(n)
  {
    hide Moment, Names, TakesAt, Indexed, PayA, Plain, Paying, Credit;
    FirstLife();
    LastFive();
    NamesTwo(Moment(5));
    NewOnTop(Moment(5).p, Moment(6).p);
    BackToY(Moment(6).p, Moment(7).p);
    BackToX(Moment(7).p, Moment(8).p);
    OtherOnTop(Moment(8).p, Moment(9).p);
    LiveCreditLost(Moment(9).p, Moment(10).p);
  }

  lemma NamesTwo(h: History)
    requires Names(h) && h.chain == [Plain("Y'", 0), Plain("X'", 1)]
    ensures h.p.store.blockAt == map[0 := "Y'", 1 := "X'"]
  {
  }

  lemma AtEnd()
    ensures Moment(10) == Run(Life(), PayA)
  {
    hide Life;
    assert Life()[..10] == Life();
  }

  lemma NotAccepted()
    ensures !Accepts(Moment(5).p, Moment(5).chain, Moment(5).known, Paying("W", 2), PayA)
    ensures !Dense(MakeRoom(Moment(5).p.store, Paying("W", 2)), A)
  {
    hide Moment, Names, Paying, PayA, MakeRoom, Dense, InUse, Indices;
    FirstLife();
    NamesTwo(Moment(5));
    var block, p := Paying("W", 2), Moment(5).p;
    PaysOnce(block, "W", 2);
    RoomFor(p.store, block);
    var room := MakeRoom(p.store, block);
    NotDense(room);
    var pays := AllPays(AllCreates(block.transactions), PayA);
    assert pays[0].address == "A";
    assert !NextIsFresh(room, p.counters, AddressTxo(pays[0].address));
  }

  /** Every block of the history can be placed when it comes. The first one after the restart gets a number that an old
      undo list names, and in the end the index has no entry, though a block of the chain pays the address. */
  lemma RestartLosesCredit()
    ensures forall n :: 0 <= n < 10 ==> TakesAt(n)
    ensures !Accepts(Moment(5).p, Moment(5).chain, Moment(5).known, Paying("W", 2), PayA)
    ensures !Dense(MakeRoom(Moment(5).p.store, Paying("W", 2)), A)
    ensures var final := Run(Life(), PayA);
      && final.chain == [Paying("Y", 0), Plain("X''", 1), Plain("V", 2)]
      && AllCreates(Paying("Y", 0).transactions) == [Txo(Outpoint("Y", 0), 50, [])]
      && final.p.store.txos.entries == map[]
  {
    hide Takes, Accepts, Run, Dense, MakeRoom, Moment;
    FirstLife();
    SecondLife();
    NotAccepted();
    PaysOnce(Paying("Y", 0), "Y", 0);
    AtEnd();
    assert TakesAt(4);
  }
}

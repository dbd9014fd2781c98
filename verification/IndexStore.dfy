/** The part of the key/value store that the address index lives in, by families of keys, and the
    layout that ties its entries to the blocks of a chain. */
module IndexStore {
  import opened BlockchainTypes
  import opened Ledger

  /** The sequence with x at position h, over what stood there or at the end. */
  function PlaceAt<T>(s: seq<T>, h: nat, x: T): seq<T>
    requires h <= |s|
  {
    if h < |s| then s[h := x] else s + [x]
  }

  /** An entry of an address, and an entry of a block's undo list. */
  datatype Place = Place(address: Address, index: nat)
  datatype UndoKey = UndoKey(hash: Hash, index: nat)

  datatype TxoRecord = TxoRecord(point: Outpoint, height: nat, value: nat)
  datatype Spender = Spender(blockHash: Hash, txHash: Hash, index: nat)

  /** The outputs by address, and for each block the places of the outputs it added. */
  datatype Txos = Txos(entries: map<Place, TxoRecord>, undo: map<UndoKey, Place>) {
    function Write(batch: Txos): Txos {
      Txos(entries + batch.entries, undo + batch.undo)
    }

    /** The places that a block's undo list names. */
    function Named(hash: Hash): set<Place> {
      set e | e in undo.Keys && e.hash == hash :: undo[e]
    }
  }

  /** The spent markers, and for each block the outpoints it marked. */
  datatype Marks = Marks(markers: map<Outpoint, Spender>, undo: map<UndoKey, Outpoint>) {
    function Write(batch: Marks): Marks {
      Marks(markers + batch.markers, undo + batch.undo)
    }

    function Named(hash: Hash): set<Outpoint> {
      set e | e in undo.Keys && e.hash == hash :: undo[e]
    }
  }

  datatype Store = Store(blockAt: map<nat, Hash>, txos: Txos, marks: Marks, highestBlock: Option<nat>)

  const EMPTY := Store(map[], Txos(map[], map[]), Marks(map[], map[]), None)

  /** The families that number their entries. */
  datatype Prefix = AddressTxo(address: Address) | BlockTxo(hash: Hash) | BlockSpent(spender: Hash)

  type Counters = map<Prefix, nat>

  /** The indices stored under a prefix: what a range scan visits. */
  function Indices(db: Store, prefix: Prefix): set<nat> {
    match prefix
    case AddressTxo(a) => set k | k in db.txos.entries.Keys && k.address == a :: k.index
    case BlockTxo(h) => set e | e in db.txos.undo.Keys && e.hash == h :: e.index
    case BlockSpent(h) => set e | e in db.marks.undo.Keys && e.hash == h :: e.index
  }

  /** The indices in use under a prefix: those stored, and those of entries that some undo list still names,
      even where the entry itself is gone. */
  function InUse(db: Store, prefix: Prefix): set<nat> {
    Indices(db, prefix) +
    match prefix
    case AddressTxo(a) => set e | e in db.txos.undo.Keys && db.txos.undo[e].address == a :: db.txos.undo[e].index
    case _ => {}
  }

  /** One output credited to one address. */
  datatype Pay = Pay(address: Address, txo: Txo)

  function PaysTo(u: Txo, addresses: seq<Address>): (ps: seq<Pay>)
    ensures |ps| == |addresses|
  {
    seq(|addresses|, i requires 0 <= i < |addresses| => Pay(addresses[i], u))
  }

  /** The credits of a list of outputs, in the order in which the indexer stores them. */
  function AllPays(us: seq<Txo>, solver: Solver): seq<Pay> {
    if us == [] then []
    else AllPays(us[..|us| - 1], solver) + PaysTo(us[|us| - 1], solver(us[|us| - 1].script))
  }

  lemma {:induction false} AllPaysConcat(us: seq<Txo>, vs: seq<Txo>, solver: Solver)
    ensures AllPays(us + vs, solver) == AllPays(us, solver) + AllPays(vs, solver)
  {
    hide PaysTo;
    if vs == [] {
      assert us + vs == us;
    } else {
      assert (us + vs)[..|us + vs| - 1] == us + vs[..|vs| - 1];
      AllPaysConcat(us, vs[..|vs| - 1], solver);
    }
  }

  // ---------- The outputs of the blocks of a chain ----------

  /** Where a credit is stored, and under which number the block's undo list names that place. */
  datatype Slot = Slot(key: Place, undo: nat)

  /** The credits of the block at one height, and where they are stored. */
  datatype TxoRow = TxoRow(hash: Hash, pays: seq<Pay>, slots: seq<Slot>)

  ghost predicate HasKey(row: TxoRow, k: Place) {
    exists p :: 0 <= p < |row.slots| && row.slots[p].key == k
  }

  ghost predicate SlotStored(t: Txos, hash: Hash, pay: Pay, slot: Slot, height: nat) {
    && slot.key.address == pay.address
    && slot.key in t.entries
    && t.entries[slot.key] == TxoRecord(pay.txo.point, height, pay.txo.value)
    && UndoKey(hash, slot.undo) in t.undo
    && t.undo[UndoKey(hash, slot.undo)] == slot.key
  }

  ghost predicate RowStored(t: Txos, row: TxoRow, height: nat) {
    && |row.slots| == |row.pays|
    && (forall p :: 0 <= p < |row.slots| ==> SlotStored(t, row.hash, row.pays[p], row.slots[p], height))
    && (forall p, q :: 0 <= p < q < |row.slots| ==> row.slots[p].key != row.slots[q].key)
  }

  ghost predicate Stored(t: Txos, rows: seq<TxoRow>) {
    forall h :: 0 <= h < |rows| ==> RowStored(t, rows[h], h)
  }

  /** A block stands at one height, and a place belongs to one block. */
  ghost predicate Apart(rows: seq<TxoRow>) {
    && (forall h, h' :: 0 <= h < h' < |rows| ==> rows[h].hash != rows[h'].hash)
    && (forall h, h', k :: 0 <= h < |rows| && 0 <= h' < |rows| && HasKey(rows[h], k) && HasKey(rows[h'], k) ==> h == h')
  }

  ghost predicate Owned(rows: seq<TxoRow>, k: Place) {
    exists h :: 0 <= h < |rows| && HasKey(rows[h], k)
  }

  ghost predicate AllOwned(t: Txos, rows: seq<TxoRow>) {
    forall k :: k in t.entries ==> Owned(rows, k)
  }

  /** Undo lists keep the entries of blocks long replaced, but only a row's own list names its places. */
  ghost predicate UndoNamesOwner(t: Txos, rows: seq<TxoRow>) {
    forall e, h :: e in t.undo && 0 <= h < |rows| && HasKey(rows[h], t.undo[e]) ==> e.hash == rows[h].hash
  }

  /** The store holds the credits of the rows, each at its own place, and nothing else. */
  ghost predicate TxosLaid(t: Txos, rows: seq<TxoRow>) {
    Stored(t, rows) && Apart(rows) && AllOwned(t, rows) && UndoNamesOwner(t, rows)
  }

  function Vacant(row: TxoRow): TxoRow {
    row.(pays := [], slots := [])
  }

  /** The undo list of a row names the places of that row, and of no other row. */
  lemma UndoneIsRow(t: Txos, rows: seq<TxoRow>, h: nat, k: Place)
    requires TxosLaid(t, rows) && h < |rows| && k in t.entries
    ensures k in t.Named(rows[h].hash) <==> HasKey(rows[h], k)
  {
    assert RowStored(t, rows[h], h);
    if HasKey(rows[h], k) {
      var p :| 0 <= p < |rows[h].slots| && rows[h].slots[p].key == k;
      assert SlotStored(t, rows[h].hash, rows[h].pays[p], rows[h].slots[p], h);
    }
    if e :| e in t.undo && e.hash == rows[h].hash && t.undo[e] == k {
      assert Owned(rows, k);
      var g :| 0 <= g < |rows| && HasKey(rows[g], k);
      assert rows[g].hash == e.hash;
    }
  }

  lemma OthersStayStored(t: Txos, rows: seq<TxoRow>, h: nat, g: nat)
    requires TxosLaid(t, rows) && h < |rows| && g < |rows| && g != h
    ensures RowStored(t.(entries := t.entries - t.Named(rows[h].hash)), rows[g], g)
  {
    hide Apart, AllOwned, UndoNamesOwner;
    var t' := t.(entries := t.entries - t.Named(rows[h].hash));
    assert RowStored(t, rows[g], g);
    forall p | 0 <= p < |rows[g].slots|
      ensures SlotStored(t', rows[g].hash, rows[g].pays[p], rows[g].slots[p], g)
    {
      assert SlotStored(t, rows[g].hash, rows[g].pays[p], rows[g].slots[p], g);
      assert HasKey(rows[g], rows[g].slots[p].key);
      UndoneIsRow(t, rows, h, rows[g].slots[p].key);
      if HasKey(rows[h], rows[g].slots[p].key) { NotInBoth(rows, g, h, rows[g].slots[p].key); }
    }
  }

  lemma NotInBoth(rows: seq<TxoRow>, g: nat, h: nat, k: Place)
    requires Apart(rows) && g < |rows| && h < |rows| && HasKey(rows[g], k) && HasKey(rows[h], k)
    ensures g == h
  {
  }

  /** Clearing the block of a row takes that row's credits away, and leaves every other row whole. */
  lemma ClearRow(t: Txos, rows: seq<TxoRow>, h: nat)
    requires TxosLaid(t, rows) && h < |rows|
    ensures TxosLaid(t.(entries := t.entries - t.Named(rows[h].hash)), rows[h := Vacant(rows[h])])
  {
    hide RowStored;
    var t', rows' := t.(entries := t.entries - t.Named(rows[h].hash)), rows[h := Vacant(rows[h])];
    assert forall k :: !HasKey(rows'[h], k);
    EmptyRowStored(t', rows'[h], h);
    forall g | 0 <= g < |rows'|
      ensures RowStored(t', rows'[g], g)
    {
      if g != h { OthersStayStored(t, rows, h, g); }
    }
    forall k | k in t'.entries
      ensures Owned(rows', k)
    {
      assert Owned(rows, k);
      var g :| 0 <= g < |rows| && HasKey(rows[g], k);
      UndoneIsRow(t, rows, h, k);
      assert HasKey(rows'[g], k);
    }
  }

  lemma EmptyRowStored(t: Txos, row: TxoRow, height: nat)
    requires row.pays == [] && row.slots == []
    ensures RowStored(t, row, height)
  {
  }

  /** A new height starts out empty. */
  lemma AppendRow(t: Txos, rows: seq<TxoRow>, hash: Hash)
    requires TxosLaid(t, rows) && forall h :: 0 <= h < |rows| ==> rows[h].hash != hash
    ensures TxosLaid(t, rows + [TxoRow(hash, [], [])])
  {
    var rows' := rows + [TxoRow(hash, [], [])];
    assert forall k :: !HasKey(rows'[|rows|], k);
    forall k | k in t.entries
      ensures Owned(rows', k)
    {
      assert Owned(rows, k);
      var g :| 0 <= g < |rows| && HasKey(rows[g], k);
      assert HasKey(rows'[g], k);
    }
  }

  /** A batch that stores one row, at places that no entry and no undo list names yet. */
  ghost predicate PendingTxos(t: Txos, batch: Txos, row: TxoRow, height: nat) {
    && RowStored(batch, row, height)
    && (forall k :: k in batch.entries ==> HasKey(row, k) && k !in t.entries)
    && (forall e :: e in t.undo ==> t.undo[e] !in batch.entries)
    && (forall e :: e in batch.undo ==> e.hash == row.hash && e !in t.undo && HasKey(row, batch.undo[e]))
  }

  function PutTxo(batch: Txos, hash: Hash, height: nat, pay: Pay, n: nat, m: nat): Txos {
    Txos(batch.entries[Place(pay.address, n) := TxoRecord(pay.txo.point, height, pay.txo.value)],
         batch.undo[UndoKey(hash, m) := Place(pay.address, n)])
  }

  function WithTxo(row: TxoRow, pay: Pay, n: nat, m: nat): TxoRow {
    row.(pays := row.pays + [pay], slots := row.slots + [Slot(Place(pay.address, n), m)])
  }

  lemma HasKeyGrows(row: TxoRow, pay: Pay, n: nat, m: nat, k: Place)
    ensures HasKey(WithTxo(row, pay, n, m), k) <==> HasKey(row, k) || k == Place(pay.address, n)
  {
    var row' := WithTxo(row, pay, n, m);
    if HasKey(row, k) {
      var p :| 0 <= p < |row.slots| && row.slots[p].key == k;
      assert row'.slots[p].key == k;
    }
    assert row'.slots[|row.slots|].key == Place(pay.address, n);
  }

  lemma RowGrows(batch: Txos, row: TxoRow, height: nat, pay: Pay, n: nat, m: nat)
    requires RowStored(batch, row, height)
    requires Place(pay.address, n) !in batch.entries && UndoKey(row.hash, m) !in batch.undo
    ensures RowStored(PutTxo(batch, row.hash, height, pay, n, m), WithTxo(row, pay, n, m), height)
  {
    var row', batch' := WithTxo(row, pay, n, m), PutTxo(batch, row.hash, height, pay, n, m);
    forall p | 0 <= p < |row'.slots|
      ensures SlotStored(batch', row'.hash, row'.pays[p], row'.slots[p], height)
    {
      if p < |row.slots| {
        assert SlotStored(batch, row.hash, row.pays[p], row.slots[p], height);
      }
    }
    forall p, q | 0 <= p < q < |row'.slots|
      ensures row'.slots[p].key != row'.slots[q].key
    {
      assert SlotStored(batch, row.hash, row.pays[p], row.slots[p], height);
    }
  }

  /** A place that no entry and no undo list names. */
  ghost predicate Unnamed(t: Txos, k: Place) {
    k !in t.entries && forall e :: e in t.undo ==> t.undo[e] != k
  }

  /** A batch grows by one credit: an unnamed place of the address, an unused number of the undo list. */
  lemma PendingTxo(t: Txos, batch: Txos, row: TxoRow, height: nat, pay: Pay, n: nat, m: nat)
    requires PendingTxos(t, batch, row, height)
    requires Unnamed(t, Place(pay.address, n)) && Place(pay.address, n) !in batch.entries
    requires UndoKey(row.hash, m) !in t.undo && UndoKey(row.hash, m) !in batch.undo
    ensures PendingTxos(t, PutTxo(batch, row.hash, height, pay, n, m), WithTxo(row, pay, n, m), height)
  {
    var row', batch' := WithTxo(row, pay, n, m), PutTxo(batch, row.hash, height, pay, n, m);
    RowGrows(batch, row, height, pay, n, m);
    forall k | k in batch'.entries
      ensures HasKey(row', k) && k !in t.entries
    {
      HasKeyGrows(row, pay, n, m, k);
    }
    forall e | e in batch'.undo
      ensures e.hash == row'.hash && e !in t.undo && HasKey(row', batch'.undo[e])
    {
      HasKeyGrows(row, pay, n, m, batch'.undo[e]);
    }
  }

  lemma PendingIsFresh(t: Txos, batch: Txos, rows: seq<TxoRow>, row: TxoRow, height: nat)
    requires Stored(t, rows) && PendingTxos(t, batch, row, height)
    ensures forall k :: HasKey(row, k) ==> k in batch.entries
    ensures forall g, k :: 0 <= g < |rows| && HasKey(rows[g], k) ==> k in t.entries
  {
    forall k | HasKey(row, k)
      ensures k in batch.entries
    {
      var p :| 0 <= p < |row.slots| && row.slots[p].key == k;
      assert SlotStored(batch, row.hash, row.pays[p], row.slots[p], height);
    }
    forall g, k | 0 <= g < |rows| && HasKey(rows[g], k)
      ensures k in t.entries
    {
      var p :| 0 <= p < |rows[g].slots| && rows[g].slots[p].key == k;
      assert SlotStored(t, rows[g].hash, rows[g].pays[p], rows[g].slots[p], g);
    }
  }

  lemma WriteStores(t: Txos, batch: Txos, rows: seq<TxoRow>, h: nat, row: TxoRow)
    requires Stored(t, rows) && h < |rows| && PendingTxos(t, batch, row, h)
    ensures Stored(t.Write(batch), rows[h := row])
  {
    var t', rows' := t.Write(batch), rows[h := row];
    forall g, p | 0 <= g < |rows'| && 0 <= p < |rows'[g].slots|
      ensures SlotStored(t', rows'[g].hash, rows'[g].pays[p], rows'[g].slots[p], g)
    {
      if g == h {
        assert SlotStored(batch, row.hash, row.pays[p], row.slots[p], g);
      } else {
        assert SlotStored(t, rows[g].hash, rows[g].pays[p], rows[g].slots[p], g);
      }
    }
  }

  lemma WriteOwns(t: Txos, batch: Txos, rows: seq<TxoRow>, h: nat, row: TxoRow)
    requires AllOwned(t, rows) && h < |rows| && rows[h].slots == []
    requires PendingTxos(t, batch, row, h)
    ensures AllOwned(t.Write(batch), rows[h := row])
  {
    forall k | k in t.Write(batch).entries
      ensures Owned(rows[h := row], k)
    {
      if k in batch.entries {
        assert HasKey(rows[h := row][h], k);
      } else {
        assert Owned(rows, k);
        var g :| 0 <= g < |rows| && HasKey(rows[g], k);
        assert HasKey(rows[h := row][g], k);
      }
    }
  }

  lemma WriteUndo(t: Txos, batch: Txos, rows: seq<TxoRow>, h: nat, row: TxoRow)
    requires Stored(t, rows) && UndoNamesOwner(t, rows) && h < |rows|
    requires PendingTxos(t, batch, row, h)
    ensures UndoNamesOwner(t.Write(batch), rows[h := row])
  {
    PendingIsFresh(t, batch, rows, row, h);
    var t', rows' := t.Write(batch), rows[h := row];
    forall e, g | e in t'.undo && 0 <= g < |rows'| && HasKey(rows'[g], t'.undo[e])
      ensures e.hash == rows'[g].hash
    {
      if e in batch.undo {
        assert HasKey(row, batch.undo[e]);
      } else if g != h {
        assert HasKey(rows[g], t.undo[e]);
      }
    }
  }

  /** Writing such a batch fills an empty row, and leaves every other row whole. */
  lemma WriteRow(t: Txos, batch: Txos, rows: seq<TxoRow>, h: nat, row: TxoRow)
    requires TxosLaid(t, rows) && h < |rows| && rows[h].slots == []
    requires PendingTxos(t, batch, row, h)
    requires forall g :: 0 <= g < |rows| && g != h ==> rows[g].hash != row.hash
    ensures TxosLaid(t.Write(batch), rows[h := row])
  {
    PendingIsFresh(t, batch, rows, row, h);
    WriteStores(t, batch, rows, h, row);
    WriteOwns(t, batch, rows, h, row);
    WriteUndo(t, batch, rows, h, row);
  }

  // ---------- The spends of the blocks of a chain ----------

  /** What the block at one height spends, and under which numbers its undo list notes it. */
  datatype MarkRow = MarkRow(hash: Hash, spends: seq<Outpoint>, numbers: seq<nat>)

  ghost predicate MarkRowStored(m: Marks, row: MarkRow) {
    && |row.numbers| == |row.spends|
    && (forall q :: 0 <= q < |row.numbers| ==>
          && UndoKey(row.hash, row.numbers[q]) in m.undo
          && m.undo[UndoKey(row.hash, row.numbers[q])] == row.spends[q])
  }

  /** What a block spends is known once and for all; its undo list names all of it and nothing else. */
  ghost predicate MarksLaid(m: Marks, rows: seq<MarkRow>, known: map<Hash, seq<Outpoint>>) {
    && (forall e :: e in m.undo ==> e.hash in known && m.undo[e] in known[e.hash])
    && (forall h :: 0 <= h < |rows| ==>
          MarkRowStored(m, rows[h]) && rows[h].hash in known && known[rows[h].hash] == rows[h].spends)
  }

  lemma UndoneIsSpends(m: Marks, rows: seq<MarkRow>, known: map<Hash, seq<Outpoint>>, h: nat)
    requires MarksLaid(m, rows, known) && h < |rows|
    ensures m.Named(rows[h].hash) == AsSet(rows[h].spends)
  {
    forall o | o in rows[h].spends
      ensures o in m.Named(rows[h].hash)
    {
      var q :| 0 <= q < |rows[h].spends| && rows[h].spends[q] == o;
      assert UndoKey(rows[h].hash, rows[h].numbers[q]) in m.undo;
    }
  }

  ghost predicate PendingMarks(m: Marks, batch: Marks, row: MarkRow) {
    && MarkRowStored(batch, row)
    && (forall e :: e in batch.undo ==> e.hash == row.hash && e !in m.undo && batch.undo[e] in row.spends)
    && batch.markers.Keys == AsSet(row.spends)
  }

  function PutMark(batch: Marks, hash: Hash, o: Outpoint, spender: Spender, n: nat): Marks {
    Marks(batch.markers[o := spender], batch.undo[UndoKey(hash, n) := o])
  }

  function WithMark(row: MarkRow, o: Outpoint, n: nat): MarkRow {
    row.(spends := row.spends + [o], numbers := row.numbers + [n])
  }

  lemma PendingMark(m: Marks, batch: Marks, row: MarkRow, o: Outpoint, spender: Spender, n: nat)
    requires PendingMarks(m, batch, row)
    requires UndoKey(row.hash, n) !in m.undo && UndoKey(row.hash, n) !in batch.undo
    ensures PendingMarks(m, PutMark(batch, row.hash, o, spender, n), WithMark(row, o, n))
  {
    var row', batch' := WithMark(row, o, n), PutMark(batch, row.hash, o, spender, n);
    assert row'.spends[|row.spends|] == o;
    assert AsSet(row'.spends) == AsSet(row.spends) + {o};
    forall q | 0 <= q < |row'.numbers|
      ensures var e := UndoKey(row'.hash, row'.numbers[q]); e in batch'.undo && batch'.undo[e] == row'.spends[q]
    {
      if q < |row.numbers| {
        assert row'.numbers[q] == row.numbers[q] && row'.spends[q] == row.spends[q];
        assert UndoKey(row.hash, row.numbers[q]) in batch.undo;
      }
    }
  }

  lemma WriteMarks(m: Marks, batch: Marks, rows: seq<MarkRow>, known: map<Hash, seq<Outpoint>>, h: nat, row: MarkRow)
    requires MarksLaid(m, rows, known) && h <= |rows| && PendingMarks(m, batch, row)
    requires row.hash in known ==> known[row.hash] == row.spends
    ensures MarksLaid(m.Write(batch), PlaceAt(rows, h, row), known[row.hash := row.spends])
  {
    var m', rows' := m.Write(batch), PlaceAt(rows, h, row);
    forall g | 0 <= g < |rows'|
      ensures MarkRowStored(m', rows'[g])
    {
      assert g != h ==> MarkRowStored(m, rows[g]);
    }
  }
}

/** Histories of the indexer across restarts: which of them keep the store right, and one that does not. */
module Restart {
  import opened BlockchainTypes
  import opened Ledger
  import opened IndexStore
  import opened Numbering
  import opened BlockIndexer
  import opened TightNumbering

  /** A block goes to the indexer, or the process ends and a new one opens the database. */
  datatype Event = Index(block: Block) | Reopen

  /** The store and counters, and what they should hold. */
  datatype History = History(p: Counted, chain: seq<Block>, marked: set<Outpoint>, known: map<Hash, seq<Outpoint>>)

  function Start(): History {
    History(Counted(EMPTY, map[]), [], {}, map[])
  }

  function After(h: History, e: Event, solver: Solver): History {
    match e
    case Reopen => h.(p := h.p.(counters := map[]))
    case Index(block) =>
      if IsIndexed(h.p.store, block) || block.height > |h.chain| then h.(p := Indexed(h.p, block, solver))
      else
        History(Indexed(h.p, block, solver), PlaceAt(h.chain, block.height, block),
                MarkedAfter(h.chain, h.marked, block), h.known[block.blockHash := AllSpends(block.transactions)])
  }

  function Run(events: seq<Event>, solver: Solver): History {
    if events == [] then Start() else After(Run(events[..|events| - 1], solver), events[|events| - 1], solver)
  }

  /** Every block is already indexed, or is accepted when it comes. */
  ghost predicate Accepted(events: seq<Event>, solver: Solver) {
    events == [] ||
    var n := |events| - 1;
    var before := Run(events[..n], solver);
    && Accepted(events[..n], solver)
    && (events[n].Index? ==>
          IsIndexed(before.p.store, events[n].block) ||
          Accepts(before.p, before.chain, before.known, events[n].block, solver))
  }

  ghost predicate Right(h: History, rows: seq<TxoRow>, markRows: seq<MarkRow>, solver: Solver) {
    && Consistent(h.p.store, rows, markRows, h.known, h.chain, solver) && Covers(h.p.store, h.p.counters)
    && h.p.store.marks.markers.Keys == h.marked
  }

  lemma StartIsRight(solver: Solver)
    ensures Right(Start(), [], [], solver) && AllCached(EMPTY, map[])
  {
    assert forall prefix :: InUse(EMPTY, prefix) == {};
  }

  lemma ReopenedIsRight(h: History, rows: seq<TxoRow>, markRows: seq<MarkRow>, solver: Solver)
    requires Right(h, rows, markRows, solver)
    ensures Right(After(h, Reopen, solver), rows, markRows, solver)
  {
    hide Consistent, InUse;
  }

  lemma IndexedIsRight(h: History, rows: seq<TxoRow>, markRows: seq<MarkRow>, block: Block, solver: Solver)
    returns (rows': seq<TxoRow>, markRows': seq<MarkRow>)
    requires Right(h, rows, markRows, solver) && Accepts(h.p, h.chain, h.known, block, solver)
    ensures Right(After(h, Index(block), solver), rows', markRows', solver)
    ensures AllCached(h.p.store, h.p.counters) ==>
      var p := After(h, Index(block), solver).p; AllCached(p.store, p.counters)
  {
    hide Consistent, Covers, AllCached, Indexed, ReadsFresh, MarkedAfter, MakeRoom;
    AcceptsMeans(h.p, h.chain, h.known, block, solver);
    PlaceableMeans(h.chain, h.known, block);
    var row, markRow := IndexedIsConsistent(h.p, rows, markRows, h.known, h.chain, block, solver);
    rows', markRows' := PlaceAt(rows, block.height, row), PlaceAt(markRows, block.height, markRow);
  }

  /** Whatever the order of blocks and restarts: as long as every block is accepted, the store holds exactly the
      credits of the resulting chain, each where its address expects it, and exactly the markers of the run. */
  lemma {:induction false} HistoryIsRight(events: seq<Event>, solver: Solver)
    returns (rows: seq<TxoRow>, markRows: seq<MarkRow>)
    requires Accepted(events, solver)
    ensures Right(Run(events, solver), rows, markRows, solver)
  {
    hide Right, Accepts, IsIndexed, After;
    if events == [] {
      rows, markRows := [], [];
      StartIsRight(solver);
    } else {
      var n := |events| - 1;
      var before := Run(events[..n], solver);
      rows, markRows := HistoryIsRight(events[..n], solver);
      match events[n]
      case Reopen => ReopenedIsRight(before, rows, markRows, solver);
      case Index(block) =>
        if IsIndexed(before.p.store, block) {
          SkippedIsSame(before, block, solver);
        } else {
          rows, markRows := IndexedIsRight(before, rows, markRows, block, solver);
        }
    }
  }

  lemma SkippedIsSame(h: History, block: Block, solver: Solver)
    requires IsIndexed(h.p.store, block)
    ensures After(h, Index(block), solver) == h
  {
  }

  /** Without a restart nothing is asked of the numbers: it is enough that every block can be placed. */
  lemma {:induction false} OneProcessIsAccepted(events: seq<Event>, solver: Solver)
    requires forall i :: 0 <= i < |events| ==> events[i].Index?
    requires forall n :: 0 <= n < |events| ==>
      var before := Run(events[..n], solver);
      IsIndexed(before.p.store, events[n].block) || Placeable(before.chain, before.known, events[n].block)
    ensures Accepted(events, solver)
    ensures var p := Run(events, solver).p; AllCached(p.store, p.counters)
  {
    hide Right, Placeable, IsIndexed, After, AllCached, ReadsFresh, Covers;
    if events == [] {
      StartIsRight(solver);
    } else {
      var n := |events| - 1;
      var before, block := Run(events[..n], solver), events[n].block;
      forall m | 0 <= m < n
        ensures var b := Run(events[..n][..m], solver);
          IsIndexed(b.p.store, events[..n][m].block) || Placeable(b.chain, b.known, events[..n][m].block)
      {
        assert events[..n][..m] == events[..m];
      }
      OneProcessIsAccepted(events[..n], solver);
      if IsIndexed(before.p.store, block) {
        SkippedIsSame(before, block, solver);
      } else {
        var rows, markRows := HistoryIsRight(events[..n], solver);
        RightCovers(before, rows, markRows, solver);
        CachedReadsFresh(before.p.store, before.p.counters, block, solver);
        rows, markRows := IndexedIsRight(before, rows, markRows, block, solver);
      }
    }
  }

  lemma RightCovers(h: History, rows: seq<TxoRow>, markRows: seq<MarkRow>, solver: Solver)
    requires Right(h, rows, markRows, solver)
    ensures Covers(h.p.store, h.p.counters)
  {
  }

  // ---------- The first block after a restart ----------

  /** The addresses that a block credits are dense, and so are its own two undo lists. */
  ghost predicate DenseFor(db: Store, block: Block, solver: Solver) {
    && Dense(db, BlockTxo(block.blockHash)) && Dense(db, BlockSpent(block.blockHash))
    && DenseAt(db, AllPays(AllCreates(block.transactions), solver))
  }

  ghost predicate DenseAt(db: Store, pays: seq<Pay>) {
    forall i :: 0 <= i < |pays| ==> Dense(db, AddressTxo(pays[i].address))
  }

  /** On a store that was just opened a block that can be placed is accepted exactly when its prefixes are dense. */
  lemma ReopenedAcceptsIff(h: History, block: Block, solver: Solver)
    requires Covers(h.p.store, h.p.counters) && h.p.counters == map[]
    requires !IsIndexed(h.p.store, block) && Placeable(h.chain, h.known, block)
    ensures Accepts(h.p, h.chain, h.known, block, solver) <==> DenseFor(MakeRoom(h.p.store, block), block, solver)
  {
    hide MakeRoom, NextIsFresh, Dense, Covers, Placeable, AllPays, AllCreates;
    CoversRoom(h.p.store, h.p.counters, block);
    forall prefix
      ensures NextIsFresh(MakeRoom(h.p.store, block), map[], prefix) <==> Dense(MakeRoom(h.p.store, block), prefix)
    {
      RestartIsSafeIff(MakeRoom(h.p.store, block), map[], prefix);
    }
  }

  // ---------- Restarts while the chain only grows ----------

  /** While blocks only come on top of the chain, restarts may come at any time. */
  lemma {:induction false} GrowingIsAccepted(events: seq<Event>, solver: Solver)
    requires forall n :: 0 <= n < |events| && events[n].Index? ==>
      var before := Run(events[..n], solver);
      Placeable(before.chain, before.known, events[n].block) && events[n].block.height == |before.chain|
    ensures Accepted(events, solver)
    ensures var p := Run(events, solver).p; Tight(p.store, p.counters)
  {
    hide Right, Placeable, After, Accepts, Tight, ReadsFresh, Covers;
    if events == [] {
      StartIsTight();
    } else {
      var n := |events| - 1;
      var before := Run(events[..n], solver);
      forall m | 0 <= m < n && events[..n][m].Index?
        ensures var b := Run(events[..n][..m], solver);
          Placeable(b.chain, b.known, events[..n][m].block) && events[..n][m].block.height == |b.chain|
      {
        assert events[..n][..m] == events[..m];
      }
      GrowingIsAccepted(events[..n], solver);
      match events[n]
      case Reopen =>
        ReopenedIsTight(before.p.store, before.p.counters);
        AfterIs(before, Reopen, solver);
      case Index(block) =>
        var rows, markRows := HistoryIsRight(events[..n], solver);
        TopIsAccepted(before, rows, markRows, block, solver);
    }
  }

  lemma AfterIs(h: History, e: Event, solver: Solver)
    ensures After(h, e, solver).p == if e.Index? then Indexed(h.p, e.block, solver) else h.p.(counters := map[])
  {
  }

  lemma TopIsAccepted(h: History, rows: seq<TxoRow>, markRows: seq<MarkRow>, block: Block, solver: Solver)
    requires Right(h, rows, markRows, solver) && Tight(h.p.store, h.p.counters)
    requires Placeable(h.chain, h.known, block) && block.height == |h.chain|
    ensures Accepts(h.p, h.chain, h.known, block, solver)
    ensures var p := After(h, Index(block), solver).p; Tight(p.store, p.counters)
  {
    hide Tight, ReadsFresh, Covers, Placeable, MakeRoom, Indexed;
    BlockAtHeight(h.p.store, rows, markRows, h.known, h.chain, solver);
    NumberableIsFresh(h.p, block, solver);
    AfterIs(h, Index(block), solver);
  }
}

/** ItemRepository: the items table keyed by GTIN. A batch is written inside
    one transaction, statement by statement, as an insert-or-update keyed on
    the GTIN; any failure rolls the whole batch back. The database is
    modelled as a map held in the repository object. */
module Persistence {
  import opened Wrappers
  import opened Items

  /** The RepositoryException raised when a statement or the lookup fails. */
  datatype RepositoryError = RepositoryError(message: string)

  const UpsertFailed := "Failed to upsert items"
  const FetchFailed := "Failed to fetch item"

  /** The items table: GTIN to stored item. */
  type Table = map<string, Item>

  /** Every row is stored under its own GTIN. */
  predicate KeyedByGtin(t: Table) {
    forall g :: g in t ==> t[g].gtin == g
  }

  /** The table after running the batch's statements in order: each one
      inserts the item or overwrites every field of the row with its GTIN. */
  function UpsertAll(t: Table, items: seq<Item>): Table
    decreases |items|
  {
    if items == [] then t
    else
      var last := items[|items| - 1];
      UpsertAll(t, items[..|items| - 1])[last.gtin := last]
  }

  /** The last item of the batch carrying GTIN g, if any. */
  function LastWith(items: seq<Item>, g: string): Option<Item>
    decreases |items|
  {
    if items == [] then None
    else if items[|items| - 1].gtin == g then Some(items[|items| - 1])
    else LastWith(items[..|items| - 1], g)
  }

  /** LastWith finds an item with that GTIN that no later item shares, and
      finds nothing exactly when no item has that GTIN. */
  lemma {:induction false} LastWithCharacterised(items: seq<Item>, g: string)
    ensures LastWith(items, g).None? <==> forall k :: 0 <= k < |items| ==> items[k].gtin != g
    ensures LastWith(items, g).Some? ==>
      exists k :: 0 <= k < |items| && items[k] == LastWith(items, g).value && items[k].gtin == g &&
        forall j :: k < j < |items| ==> items[j].gtin != g
    decreases |items|
  {
    if items != [] {
      var n := |items| - 1;
      var init := items[..n];
      LastWithCharacterised(init, g);
      if items[n].gtin != g {
        assert forall k :: 0 <= k < n ==> init[k] == items[k];
        if LastWith(init, g).Some? {
          var k :| 0 <= k < |init| && init[k] == LastWith(init, g).value && init[k].gtin == g &&
            forall j :: k < j < |init| ==> init[j].gtin != g;
          assert items[k] == init[k];
        }
      }
    }
  }

  /** Last write wins: a GTIN of the batch holds the last item with that
      GTIN; any other GTIN keeps its row, or stays absent. */
  lemma {:induction false} UpsertAllLookup(t: Table, items: seq<Item>, g: string)
    ensures g in UpsertAll(t, items) <==> g in t || LastWith(items, g).Some?
    ensures LastWith(items, g).Some? ==> UpsertAll(t, items)[g] == LastWith(items, g).value
    ensures LastWith(items, g).None? && g in t ==> UpsertAll(t, items)[g] == t[g]
    decreases |items|
  {
    if items != [] {
      UpsertAllLookup(t, items[..|items| - 1], g);
    }
  }

  /** After a batch, the row of an item's GTIN is that item whenever no
      later item of the batch shares its GTIN. */
  lemma LastWriteWins(t: Table, items: seq<Item>, k: nat)
    requires k < |items|
    requires forall j :: k < j < |items| ==> items[j].gtin != items[k].gtin
    ensures items[k].gtin in UpsertAll(t, items)
    ensures UpsertAll(t, items)[items[k].gtin] == items[k]
  {
    var g := items[k].gtin;
    LastWithCharacterised(items, g);
    UpsertAllLookup(t, items, g);
    var i :| 0 <= i < |items| && items[i] == LastWith(items, g).value && items[i].gtin == g &&
      forall j :: i < j < |items| ==> items[j].gtin != g;
    if i < k {
      assert false;
    }
    if k < i {
      assert false;
    }
  }

  /** Rows whose GTIN the batch does not carry are left as they were. */
  lemma UntouchedRows(t: Table, items: seq<Item>, g: string)
    requires forall k :: 0 <= k < |items| ==> items[k].gtin != g
    ensures g in UpsertAll(t, items) <==> g in t
    ensures g in t ==> UpsertAll(t, items)[g] == t[g]
  {
    LastWithCharacterised(items, g);
    UpsertAllLookup(t, items, g);
  }

  /** The GTINs a batch carries. */
  function Gtins(items: seq<Item>): set<string> {
    set item | item in items :: item.gtin
  }

  /** The keys after the batch: the old keys and the batch's GTINs. */
  lemma {:induction false} UpsertAllKeys(t: Table, items: seq<Item>)
    ensures UpsertAll(t, items).Keys == t.Keys + Gtins(items)
    decreases |items|
  {
    if items != [] {
      var n := |items| - 1;
      var init := items[..n];
      UpsertAllKeys(t, init);
      assert items == init + [items[n]];
      assert Gtins(items) == Gtins(init) + {items[n].gtin};
    }
  }

  /** A batch keeps the table keyed by GTIN. */
  lemma {:induction false} UpsertAllKeyed(t: Table, items: seq<Item>)
    requires KeyedByGtin(t)
    ensures KeyedByGtin(UpsertAll(t, items))
    decreases |items|
  {
    if items != [] {
      UpsertAllKeyed(t, items[..|items| - 1]);
    }
  }

  /** Writing two batches one after the other is writing their
      concatenation. */
  lemma {:induction false} UpsertAllAppend(t: Table, a: seq<Item>, b: seq<Item>)
    ensures UpsertAll(t, a + b) == UpsertAll(UpsertAll(t, a), b)
    decreases |b|
  {
    if b == [] {
      assert a + b == a;
    } else {
      var n := |b| - 1;
      assert (a + b)[..|a + b| - 1] == a + b[..n];
      assert (a + b)[|a + b| - 1] == b[n];
      UpsertAllAppend(t, a, b[..n]);
    }
  }

  /** upsert() of one item is a batch of that item: insert or overwrite its
      row and leave every other row alone. */
  lemma UpsertOne(t: Table, item: Item)
    ensures UpsertAll(t, [item]) == t[item.gtin := item]
  {
    assert [item][..0] == [];
  }

  /** The recorded example: the same GTIN written twice leaves one row with
      the second item's values. */
  lemma SameGtinTwice(t: Table, first: Item, second: Item)
    requires first.gtin == second.gtin
    ensures UpsertAll(UpsertAll(t, [first]), [second]) == t[second.gtin := second]
    ensures UpsertAll(UpsertAll(t, [first]), [second]).Keys == t.Keys + {second.gtin}
  {
    UpsertOne(t, first);
    UpsertOne(t[first.gtin := first], second);
  }

  /** The recorded example: two distinct GTINs into an empty table give two
      rows. */
  lemma TwoDistinctGtins(a: Item, b: Item)
    requires a.gtin != b.gtin
    ensures |UpsertAll(map[], [a, b])| == 2
  {
    UpsertAllKeys(map[], [a, b]);
    assert Gtins([a, b]) == {a.gtin, b.gtin};
    assert UpsertAll(map[], [a, b]).Keys == {a.gtin, b.gtin};
    assert |UpsertAll(map[], [a, b]).Keys| == 2;
  }

  /** How a transaction ended. */
  datatype TransactionEnd = Committed | RolledBack

  /** A failure the database will raise inside a transaction: the statement
      for the item at `index`, or the commit. */
  datatype Fault = StatementFails(index: nat) | CommitFails

  /** n committed transactions in a row. */
  function Commits(n: nat): (r: seq<TransactionEnd>)
    ensures |r| == n && forall k :: 0 <= k < n ==> r[k] == Committed
  {
    if n == 0 then [] else Commits(n - 1) + [Committed]
  }

  /** Transaction number `txn`, writing `size` items, runs into one of
      `faults`: a failing commit, or a failing statement among its items. */
  predicate FaultHits(faults: map<nat, Fault>, txn: nat, size: nat) {
    txn in faults && (faults[txn].CommitFails? || faults[txn].index < size)
  }

  /** The batches, written in consecutive transactions from number `start`
      on, all go through. */
  predicate AllPass(faults: map<nat, Fault>, start: nat, batches: seq<seq<Item>>) {
    forall c :: 0 <= c < |batches| ==> !FaultHits(faults, start + c, |batches[c]|)
  }

  class ItemRepository {
    /** The rows of the items table. */
    var table: Table
    /** One entry per transaction opened, in order, with how it ended. */
    var transactions: seq<TransactionEnd>
    /** The database's behaviour: the fault, if any, that the transaction
        with a given number runs into. */
    const faults: map<nat, Fault>

    ghost predicate Valid()
      reads this
    {
      KeyedByGtin(table)
    }

    constructor(initial: Table, faults: map<nat, Fault>)
      requires KeyedByGtin(initial)
      ensures Valid() && table == initial && transactions == [] && this.faults == faults
    {
      table := initial;
      transactions := [];
      this.faults := faults;
    }

    /** Transaction number `txn`, writing `size` items, runs into its
        fault. */
    predicate FailsAt(txn: nat, size: nat) {
      FaultHits(faults, txn, size)
    }

    /** upsertBatch(): an empty batch touches nothing; otherwise one
        transaction writes every item and commits, or on a fault rolls back
        to the table as it was. */
    method UpsertBatch(items: seq<Item>) returns (outcome: Outcome<RepositoryError>)
      requires Valid()
      modifies this
      ensures Valid()
      ensures items == [] ==> outcome == Pass && table == old(table) && transactions == old(transactions)
      ensures items != [] ==>
        transactions == old(transactions) + [if outcome.Pass? then Committed else RolledBack]
      ensures outcome.Fail? <==> items != [] && FailsAt(|old(transactions)|, |items|)
      ensures outcome.Pass? ==> table == UpsertAll(old(table), items)
      ensures outcome.Fail? ==> table == old(table) && outcome.error == RepositoryError(UpsertFailed)
    {
      if items == [] {
        return Pass;
      }
      var txn := |transactions|;
      var fault := if txn in faults then Some(faults[txn]) else None;
      var snapshot := table;
      for i := 0 to |items|
        invariant table == UpsertAll(snapshot, items[..i])
        invariant transactions == old(transactions) && snapshot == old(table)
        invariant fault.Some? && fault.value.StatementFails? ==> fault.value.index >= i
      {
        if fault == Some(StatementFails(i)) {
          table := snapshot;
          transactions := transactions + [RolledBack];
          return Fail(RepositoryError(UpsertFailed));
        }
        var item := items[i];
        table := table[item.gtin := item];
        assert items[..i + 1][..i] == items[..i];
      }
      assert items[..|items|] == items;
      if fault == Some(CommitFails) {
        table := snapshot;
        transactions := transactions + [RolledBack];
        return Fail(RepositoryError(UpsertFailed));
      }
      transactions := transactions + [Committed];
      UpsertAllKeyed(snapshot, items);
      return Pass;
    }

    /** upsert(): a batch of one item. */
    method Upsert(item: Item) returns (outcome: Outcome<RepositoryError>)
      requires Valid()
      modifies this
      ensures Valid()
      ensures transactions == old(transactions) + [if outcome.Pass? then Committed else RolledBack]
      ensures outcome.Fail? <==> FailsAt(|old(transactions)|, 1)
      ensures outcome.Pass? ==> table == old(table)[item.gtin := item]
      ensures outcome.Fail? ==> table == old(table) && outcome.error == RepositoryError(UpsertFailed)
    {
      outcome := UpsertBatch([item]);
      UpsertOne(old(table), item);
    }

    /** findByGtin(): the stored row, or None when the GTIN is absent;
        `fetchFails` stands for a failing query. */
    method FindByGtin(gtin: string, fetchFails: bool) returns (r: Result<Option<Item>, RepositoryError>)
      requires Valid()
      ensures fetchFails ==> r == Failure(RepositoryError(FetchFailed))
      ensures !fetchFails ==> r.Success? && (r.value.None? <==> gtin !in table)
      ensures !fetchFails && gtin in table ==> r.value == Some(table[gtin]) && r.value.value.gtin == gtin
    {
      if fetchFails {
        return Failure(RepositoryError(FetchFailed));
      }
      if gtin !in table {
        return Success(None);
      }
      return Success(Some(table[gtin]));
    }
  }
}

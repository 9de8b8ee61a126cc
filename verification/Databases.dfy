/** The document database that the services share and update in place, and the collection
    services that append to it and query it. */
module Databases {
  import opened Types
  import opened Stores
  import opened Accounting

  class Database {
    var wallets: seq<Wallet>
    var transfers: seq<Transfer>
    var txns: seq<Txn>
    var ledger: seq<Entry>
    var outbox: seq<OutboxEvent>

    function View(): Store
      reads this
    {
      Store(wallets, transfers, txns, ledger, outbox)
    }

    constructor Load(s: Store)
      ensures View() == s
    {
      wallets, transfers, txns, ledger, outbox := s.wallets, s.transfers, s.txns, s.ledger, s.outbox;
    }

    /** Undo the writes of an aborted session. */
    method Restore(s: Store)
      modifies this
      ensures View() == s
    {
      wallets, transfers, txns, ledger, outbox := s.wallets, s.transfers, s.txns, s.ledger, s.outbox;
    }

    method FindWallet(w: WalletId) returns (r: Option<Snapshot>)
      ensures r == if w < |wallets| then Some(Snapshot(w, wallets[w].balance, wallets[w].version)) else None
    {
      if w < |wallets| {
        r := Some(Snapshot(w, wallets[w].balance, wallets[w].version));
      } else {
        r := None;
      }
    }

    /** The increment of a wallet update, after its filter has matched. */
    method IncrementWallet(w: WalletId, delta: int, bump: bool) returns (updated: Wallet)
      requires w < |wallets|
      modifies this`wallets
      ensures updated == Wallet(old(wallets)[w].balance + delta, old(wallets)[w].version + if bump then 1 else 0)
      ensures wallets == old(wallets)[w := updated]
    {
      updated := Wallet(wallets[w].balance + delta, wallets[w].version + if bump then 1 else 0);
      wallets := wallets[w := updated];
    }

    method FindTransferByKey(key: Key) returns (r: Option<TransferId>)
      ensures r == FindKey(transfers, key)
      ensures r.Some? ==> r.value < |transfers| && transfers[r.value].key == Some(key)
      ensures r.None? ==> forall t :: 0 <= t < |transfers| ==> transfers[t].key != Some(key)
    {
      r := None;
      for i := 0 to |transfers|
        invariant r == FindKey(transfers[..i], key)
      {
        assert transfers[..i + 1][..i] == transfers[..i];
        if r.None? && transfers[i].key == Some(key) {
          r := Some(i);
        }
      }
      assert transfers[..|transfers|] == transfers;
    }

    /** Look for a record of a transfer with a given type. */
    method FindRecord(t: TransferId, k: TxnKind) returns (found: bool)
      ensures found == HasRecord(txns, t, k)
      ensures found <==> exists i :: 0 <= i < |txns| && txns[i].transfer == Some(t) && txns[i].kind == k
    {
      var i := 0;
      while i < |txns|
        invariant i <= |txns|
        invariant forall j :: 0 <= j < i ==> !txns[j].Concerns(t, k)
      {
        if txns[i].Concerns(t, k) {
          return true;
        }
        i := i + 1;
      }
      return false;
    }

    method SaveCompleted(t: TransferId)
      requires t < |transfers|
      modifies this`transfers
      ensures View() == Complete(old(View()), t)
      ensures transfers == old(transfers)[t := old(transfers)[t].(status := COMPLETED)]
    {
      transfers := transfers[t := transfers[t].(status := COMPLETED)];
    }

    method SaveFailed(t: TransferId, reason: FailureReason)
      requires t < |transfers|
      modifies this`transfers
      ensures View() == Fail(old(View()), t, reason)
      ensures transfers == old(transfers)[t := old(transfers)[t].(status := FAILED, failureReason := Some(reason))]
    {
      transfers := transfers[t := transfers[t].(status := FAILED, failureReason := Some(reason))];
    }
  }

  class TransactionsService {
    const db: Database

    constructor (db: Database)
      ensures this.db == db
    {
      this.db := db;
    }

    method Create(w: WalletId, kind: TxnKind, amount: Amount, balanceAfter: int,
                  transfer: Option<TransferId>, counterparty: Option<WalletId>) returns (id: TxnId)
      modifies db`txns
      ensures id == |old(db.txns)|
      ensures db.txns == old(db.txns) + [Txn(w, kind, amount, balanceAfter, transfer, counterparty)]
    {
      id := |db.txns|;
      db.txns := db.txns + [Txn(w, kind, amount, balanceAfter, transfer, counterparty)];
    }
  }

  class LedgerService {
    const db: Database

    constructor (db: Database)
      ensures this.db == db
    {
      this.db := db;
    }

    method CreateEntry(w: WalletId, txn: TxnId, direction: Direction, amount: Amount, balanceAfter: int)
      modifies db`ledger
      ensures db.ledger == old(db.ledger) + [Entry(txn, w, direction, amount, balanceAfter)]
    {
      db.ledger := db.ledger + [Entry(txn, w, direction, amount, balanceAfter)];
    }

    method RecordDebit(w: WalletId, txn: TxnId, amount: Amount, balanceAfter: int)
      modifies db`ledger
      ensures db.ledger == old(db.ledger) + [Entry(txn, w, DEBIT, amount, balanceAfter)]
    {
      CreateEntry(w, txn, DEBIT, amount, balanceAfter);
    }

    method RecordCredit(w: WalletId, txn: TxnId, amount: Amount, balanceAfter: int)
      modifies db`ledger
      ensures db.ledger == old(db.ledger) + [Entry(txn, w, CREDIT, amount, balanceAfter)]
    {
      CreateEntry(w, txn, CREDIT, amount, balanceAfter);
    }

    /** Reduce a wallet's entries to a balance.  On a reconciled store it is the stored balance. */
    method ComputeBalanceFromLedger(w: WalletId) returns (total: int)
      ensures total == Net(db.ledger, w)
      ensures Reconciled(db.View()) && w < |db.wallets| ==> total == db.wallets[w].balance
    {
      total := 0;
      for i := 0 to |db.ledger|
        invariant total == Net(db.ledger[..i], w)
      {
        var x := db.ledger[i];
        assert db.ledger[..i + 1] == db.ledger[..i] + [x];
        NetAppend(db.ledger[..i], x, w);
        if x.wallet == w {
          if x.direction == CREDIT {
            total := total + x.amount;
          } else {
            total := total - x.amount;
          }
        }
      }
      assert db.ledger[..|db.ledger|] == db.ledger;
    }

    /** The grouping query, visiting the entries last to first. */
    method AggregateNetByWallet(w: WalletId) returns (net: int)
      ensures net == AggregateNet(db.ledger, w)
      ensures net == Net(db.ledger, w)
    {
      var result: Option<int> := None;
      var i := |db.ledger|;
      while 0 < i
        invariant 0 <= i <= |db.ledger|
        invariant result == Aggregate(db.ledger[i..], w)
      {
        i := i - 1;
        var x := db.ledger[i];
        assert db.ledger[i..][1..] == db.ledger[i + 1..];
        if x.wallet == w {
          var contribution: int := if x.direction == CREDIT then x.amount else x.amount * -1;
          result := Some(contribution + if result.Some? then result.value else 0);
        }
      }
      assert db.ledger[0..] == db.ledger;
      net := if result.Some? then result.value else 0;
      AggregateIsNet(db.ledger, w);
    }
  }

  class OutboxService {
    const db: Database

    constructor (db: Database)
      ensures this.db == db
    {
      this.db := db;
    }

    method Enqueue(p: Payload)
      modifies db`outbox
      ensures db.outbox == old(db.outbox) + [OutboxEvent(p, STAGED)]
    {
      db.outbox := db.outbox + [OutboxEvent(p, STAGED)];
    }

    method FindPending(limit: nat) returns (r: seq<EventId>)
      ensures r == Take(Staged(db.outbox), limit)
      ensures r <= Staged(db.outbox) && |r| <= limit && (|r| == limit || r == Staged(db.outbox))
    {
      var staged: seq<EventId> := [];
      for i := 0 to |db.outbox|
        invariant staged == Staged(db.outbox[..i])
      {
        assert db.outbox[..i + 1][..i] == db.outbox[..i];
        if db.outbox[i].status == STAGED {
          staged := staged + [i];
        }
      }
      assert db.outbox[..|db.outbox|] == db.outbox;
      r := if |staged| <= limit then staged else staged[..limit];
    }

    /** Updating an event that does not exist matches nothing. */
    method MarkPublished(e: EventId)
      modifies db`outbox
      ensures db.View() == if e < |old(db.outbox)| then Apply(old(db.View()), MarkedPublished(e)) else old(db.View())
      ensures db.outbox == if e < |old(db.outbox)|
                           then old(db.outbox)[e := OutboxEvent(old(db.outbox)[e].payload, PUBLISHED)]
                           else old(db.outbox)
    {
      if e < |db.outbox| {
        db.outbox := db.outbox[e := db.outbox[e].(status := PUBLISHED)];
      }
    }
  }
}

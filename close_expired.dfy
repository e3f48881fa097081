/** One tick of the close-expired worker: pick up to 20 ACTIVE auctions whose
    deadline has passed, end each with its top bid as winner, write an
    AUCTION_END audit row, and mail the winner when there is one. */
module CloseExpired {
  import opened Model
  import opened Ledger

  const BATCH_SIZE: nat := 20
  const AUCTION_END: string := "AUCTION_END"

  /** The winner e-mail handed to the mailer. */
  datatype WinnerMail = WinnerMail(to: string, auctionTitle: string, amountGrosze: int)

  predicate IsExpired(a: Auction, now: Time)
  {
    a.status == ACTIVE && a.endsAt <= now
  }

  /** The ids of the expired auctions among the first `n` rows, in table order. */
  function ExpiredUpTo(auctions: seq<Auction>, now: Time, n: nat): seq<AuctionId>
    requires n <= |auctions|
  {
    if n == 0 then []
    else ExpiredUpTo(auctions, now, n - 1) + (if IsExpired(auctions[n - 1], now) then [n - 1] else [])
  }

  lemma {:induction false} ExpiredUpToSpec(auctions: seq<Auction>, now: Time, n: nat)
    requires n <= |auctions|
    ensures forall k: nat :: k in ExpiredUpTo(auctions, now, n) <==> k < n && IsExpired(auctions[k], now)
    ensures forall i, j :: 0 <= i < j < |ExpiredUpTo(auctions, now, n)| ==>
      ExpiredUpTo(auctions, now, n)[i] < ExpiredUpTo(auctions, now, n)[j]
  {
    if n > 0 {
      var init := ExpiredUpTo(auctions, now, n - 1);
      ExpiredUpToSpec(auctions, now, n - 1);
      assert forall k :: k in init ==> k < n - 1;
      assert forall i :: 0 <= i < |init| ==> init[i] in init;
    }
  }

  lemma {:induction false} ExpiredUpToPrefix(auctions: seq<Auction>, now: Time, m: nat, n: nat)
    requires m <= n <= |auctions|
    ensures ExpiredUpTo(auctions, now, m) <= ExpiredUpTo(auctions, now, n)
    decreases n - m
  {
    if m < n {
      ExpiredUpToPrefix(auctions, now, m, n - 1);
    }
  }

  /** The tick's selection: the first BATCH_SIZE expired auctions in table order
      (the query has no ordering of its own). */
  function Batch(auctions: seq<Auction>, now: Time): seq<AuctionId>
  {
    var e := ExpiredUpTo(auctions, now, |auctions|);
    if |e| <= BATCH_SIZE then e else e[..BATCH_SIZE]
  }

  /** The selection holds only expired auctions, each once, at most BATCH_SIZE of
      them, and every expired auction when it holds fewer. */
  lemma BatchSpec(auctions: seq<Auction>, now: Time)
    ensures |Batch(auctions, now)| <= BATCH_SIZE
    ensures forall k :: k in Batch(auctions, now) ==> k < |auctions| && IsExpired(auctions[k], now)
    ensures forall i, j :: 0 <= i < j < |Batch(auctions, now)| ==> Batch(auctions, now)[i] != Batch(auctions, now)[j]
    ensures |Batch(auctions, now)| < BATCH_SIZE ==>
      forall k :: 0 <= k < |auctions| && IsExpired(auctions[k], now) ==> k in Batch(auctions, now)
  {
    var e := ExpiredUpTo(auctions, now, |auctions|);
    ExpiredUpToSpec(auctions, now, |auctions|);
    if |e| > BATCH_SIZE {
      assert forall k :: k in e[..BATCH_SIZE] ==> k in e;
    }
  }

  /** The selection query, as a scan of the auction table. */
  method SelectExpired(auctions: seq<Auction>, now: Time) returns (batch: seq<AuctionId>)
    ensures batch == Batch(auctions, now)
  {
    batch := [];
    var i := 0;
    while i < |auctions| && |batch| < BATCH_SIZE
      invariant 0 <= i <= |auctions|
      invariant batch == ExpiredUpTo(auctions, now, i)
      invariant |batch| <= BATCH_SIZE
    {
      if IsExpired(auctions[i], now) {
        batch := batch + [i];
      }
      i := i + 1;
    }
    ExpiredUpToPrefix(auctions, now, i, |auctions|);
  }

  /** An auction after closing: ENDED, with its top bid (if any) as winner. */
  function Close(a: Auction, bids: seq<Bid>): Auction
  {
    a.(status := ENDED, winnerBidId := TopBidId(bids, a.id))
  }

  /** The auction table after closing the auctions of `batch`. */
  function CloseAll(auctions: seq<Auction>, bids: seq<Bid>, batch: seq<AuctionId>): seq<Auction>
  {
    seq(|auctions|, k requires 0 <= k < |auctions| => if k in batch then Close(auctions[k], bids) else auctions[k])
  }

  /** The audit row for closing `a`: by its seller, with its top amount or none. */
  function EndEntry(a: Auction, bids: seq<Bid>): AuditEntry
  {
    AuditEntry(AUCTION_END, a.sellerId, a.id, TopAmount(bids, a.id))
  }

  predicate InTable(auctions: seq<Auction>, batch: seq<AuctionId>)
  {
    forall j :: 0 <= j < |batch| ==> batch[j] < |auctions|
  }

  function AuditFor(auctions: seq<Auction>, bids: seq<Bid>, batch: seq<AuctionId>): seq<AuditEntry>
    requires InTable(auctions, batch)
  {
    if batch == [] then []
    else AuditFor(auctions, bids, batch[..|batch| - 1]) + [EndEntry(auctions[batch[|batch| - 1]], bids)]
  }

  /** The mail for closing `a`: to its top bidder, when it has a top bid and the
      bidder's user row exists. */
  function MailFor(a: Auction, bids: seq<Bid>, users: map<UserId, string>): Option<WinnerMail>
  {
    match TopBid(bids, a.id)
    case None => None
    case Some(t) => if t.userId in users then Some(WinnerMail(users[t.userId], a.title, t.amount)) else None
  }

  function MailsFor(auctions: seq<Auction>, bids: seq<Bid>, users: map<UserId, string>, batch: seq<AuctionId>): seq<WinnerMail>
    requires InTable(auctions, batch)
  {
    if batch == [] then []
    else
      var rest := MailsFor(auctions, bids, users, batch[..|batch| - 1]);
      match MailFor(auctions[batch[|batch| - 1]], bids, users)
      case None => rest
      case Some(m) => rest + [m]
  }

  /** One audit row per closed auction, in the order they were closed. */
  lemma {:induction false} AuditForShape(auctions: seq<Auction>, bids: seq<Bid>, batch: seq<AuctionId>)
    requires InTable(auctions, batch)
    ensures |AuditFor(auctions, bids, batch)| == |batch|
    ensures forall j :: 0 <= j < |batch| ==> AuditFor(auctions, bids, batch)[j] == EndEntry(auctions[batch[j]], bids)
  {
    if batch != [] {
      var init := batch[..|batch| - 1];
      assert forall j :: 0 <= j < |init| ==> init[j] == batch[j];
      AuditForShape(auctions, bids, init);
      var whole := AuditFor(auctions, bids, batch);
      assert whole == AuditFor(auctions, bids, init) + [EndEntry(auctions[batch[|batch| - 1]], bids)];
      forall j | 0 <= j < |batch| ensures whole[j] == EndEntry(auctions[batch[j]], bids) {
        if j < |init| {
          assert whole[j] == AuditFor(auctions, bids, init)[j];
        }
      }
    }
  }

  /** The positions of `batch` whose closing produces a mail. */
  function MailedAt(auctions: seq<Auction>, bids: seq<Bid>, users: map<UserId, string>, batch: seq<AuctionId>): set<nat>
    requires InTable(auctions, batch)
  {
    set j: nat | j < |batch| && MailFor(auctions[batch[j]], bids, users).Some?
  }

  /** The mailed positions of a batch are those of its prefix, and its last
      position when that one produces a mail. */
  lemma MailedAtStep(auctions: seq<Auction>, bids: seq<Bid>, users: map<UserId, string>, batch: seq<AuctionId>)
    requires InTable(auctions, batch) && batch != []
    ensures InTable(auctions, batch[..|batch| - 1])
    ensures |batch| - 1 !in MailedAt(auctions, bids, users, batch[..|batch| - 1])
    ensures MailedAt(auctions, bids, users, batch)
      == MailedAt(auctions, bids, users, batch[..|batch| - 1])
         + (if MailFor(auctions[batch[|batch| - 1]], bids, users).Some? then {|batch| - 1} else {})
  {
    var init := batch[..|batch| - 1];
    assert forall j :: 0 <= j < |init| ==> init[j] == batch[j];
  }

  /** There are as many mails as batch positions whose closing produces one. */
  lemma {:induction false} MailsCount(auctions: seq<Auction>, bids: seq<Bid>, users: map<UserId, string>, batch: seq<AuctionId>)
    requires InTable(auctions, batch)
    ensures |MailsFor(auctions, bids, users, batch)| == |MailedAt(auctions, bids, users, batch)| <= |batch|
  {
    if batch == [] {
      assert MailedAt(auctions, bids, users, batch) == {};
    } else {
      MailedAtStep(auctions, bids, users, batch);
      MailsCount(auctions, bids, users, batch[..|batch| - 1]);
    }
  }

  /** Every closed auction whose closing produces a mail has that mail sent. */
  lemma {:induction false} MailsComplete(auctions: seq<Auction>, bids: seq<Bid>, users: map<UserId, string>, batch: seq<AuctionId>)
    requires InTable(auctions, batch)
    ensures forall j :: 0 <= j < |batch| && MailFor(auctions[batch[j]], bids, users).Some? ==>
      MailFor(auctions[batch[j]], bids, users).value in MailsFor(auctions, bids, users, batch)
  {
    if batch != [] {
      var init := batch[..|batch| - 1];
      assert forall j :: 0 <= j < |init| ==> init[j] == batch[j];
      MailsComplete(auctions, bids, users, init);
    }
  }

  /** Each mail sent is the mail for one of the closed auctions, and auctions
      without bids produce none. */
  lemma {:induction false} MailsSound(auctions: seq<Auction>, bids: seq<Bid>, users: map<UserId, string>, batch: seq<AuctionId>)
    requires InTable(auctions, batch)
    ensures forall m :: m in MailsFor(auctions, bids, users, batch) ==>
      exists j :: 0 <= j < |batch| && MailFor(auctions[batch[j]], bids, users) == Some(m)
    ensures (forall j :: 0 <= j < |batch| ==> TopBid(bids, auctions[batch[j]].id).None?) ==>
      MailsFor(auctions, bids, users, batch) == []
  {
    if batch != [] {
      var init := batch[..|batch| - 1];
      var last := |batch| - 1;
      MailsSound(auctions, bids, users, init);
      assert forall j :: 0 <= j < |init| ==> init[j] == batch[j];
      forall m | m in MailsFor(auctions, bids, users, batch)
        ensures exists j :: 0 <= j < |batch| && MailFor(auctions[batch[j]], bids, users) == Some(m)
      {
        if m in MailsFor(auctions, bids, users, init) {
          var j :| 0 <= j < |init| && MailFor(auctions[init[j]], bids, users) == Some(m);
          assert batch[j] == init[j];
        } else {
          assert MailFor(auctions[batch[last]], bids, users) == Some(m);
        }
      }
    }
  }

  /** Exactly one mail per closed auction that has a top bid whose bidder
      exists: every such auction's mail is sent, each mail sent is one of
      them, and there are as many mails as such auctions. Auctions without
      bids produce none. */
  lemma MailsForSpec(auctions: seq<Auction>, bids: seq<Bid>, users: map<UserId, string>, batch: seq<AuctionId>)
    requires InTable(auctions, batch)
    ensures |MailsFor(auctions, bids, users, batch)| == |MailedAt(auctions, bids, users, batch)| <= |batch|
    ensures forall j :: 0 <= j < |batch| && MailFor(auctions[batch[j]], bids, users).Some? ==>
      MailFor(auctions[batch[j]], bids, users).value in MailsFor(auctions, bids, users, batch)
    ensures forall m :: m in MailsFor(auctions, bids, users, batch) ==>
      exists j :: 0 <= j < |batch| && MailFor(auctions[batch[j]], bids, users) == Some(m)
    ensures (forall j :: 0 <= j < |batch| ==> TopBid(bids, auctions[batch[j]].id).None?) ==>
      MailsFor(auctions, bids, users, batch) == []
  {
    MailsCount(auctions, bids, users, batch);
    MailsComplete(auctions, bids, users, batch);
    MailsSound(auctions, bids, users, batch);
  }

  /** Closing any auctions keeps the tables consistent: each gets its own top bid as winner. */
  lemma ConsistentAfterCloseAll(auctions: seq<Auction>, bids: seq<Bid>, batch: seq<AuctionId>)
    requires Consistent(auctions, bids)
    ensures Consistent(CloseAll(auctions, bids, batch), bids)
  {
  }

  /** Closing expired auctions is a transition Evolves allows, and it writes
      only the status and the winner of a row: every other field, the deadline
      among them, is kept. */
  lemma CloseAllEvolves(auctions: seq<Auction>, bids: seq<Bid>, now: Time)
    ensures Evolves(auctions, CloseAll(auctions, bids, Batch(auctions, now)))
    ensures var after := CloseAll(auctions, bids, Batch(auctions, now));
      forall k :: 0 <= k < |auctions| ==>
        after[k] == auctions[k].(status := after[k].status, winnerBidId := after[k].winnerBidId)
  {
    BatchSpec(auctions, now);
  }

  /** What one more turn of the sweep loop adds to the closed table, the audit
      rows and the mails. */
  lemma SweepStep(auctions: seq<Auction>, bids: seq<Bid>, users: map<UserId, string>, batch: seq<AuctionId>, i: nat)
    requires InTable(auctions, batch) && i < |batch| && batch[i] !in batch[..i]
    ensures InTable(auctions, batch[..i]) && InTable(auctions, batch[..i + 1])
    ensures |CloseAll(auctions, bids, batch[..i])| == |auctions|
    ensures CloseAll(auctions, bids, batch[..i])[batch[i]] == auctions[batch[i]]
    ensures CloseAll(auctions, bids, batch[..i + 1])
      == CloseAll(auctions, bids, batch[..i])[batch[i] := Close(auctions[batch[i]], bids)]
    ensures AuditFor(auctions, bids, batch[..i + 1])
      == AuditFor(auctions, bids, batch[..i]) + [EndEntry(auctions[batch[i]], bids)]
    ensures MailsFor(auctions, bids, users, batch[..i + 1])
      == MailsFor(auctions, bids, users, batch[..i])
         + match MailFor(auctions[batch[i]], bids, users) case None => [] case Some(m) => [m]
  {
    assert batch[..i + 1] == batch[..i] + [batch[i]];
    assert batch[..i + 1][..i] == batch[..i];
  }

  /** The selection, as the sweep loop uses it: rows of the table, each once. */
  lemma BatchRows(auctions: seq<Auction>, now: Time)
    ensures Rows(auctions, Batch(auctions, now))
  {
    var b := Batch(auctions, now);
    BatchSpec(auctions, now);
    assert forall j :: 0 <= j < |b| ==> b[j] in b;
    forall i | 0 <= i < |b| ensures b[i] !in b[..i] {
      assert forall j :: 0 <= j < i ==> b[..i][j] == b[j] != b[i];
    }
  }

  /** The loop body: close one auction, write its audit row, and produce the
      winner mail when it has a top bid whose bidder exists. */
  method CloseOne(db: Ledger, id: AuctionId) returns (mail: Option<WinnerMail>)
    requires id < |db.auctions|
    modifies db`auctions, db`audit
    ensures db.auctions == old(db.auctions)[id := Close(old(db.auctions)[id], db.bids)]
    ensures db.audit == old(db.audit) + [EndEntry(old(db.auctions)[id], db.bids)]
    ensures mail == MailFor(old(db.auctions)[id], db.bids, db.users)
  {
    var a := db.auctions[id];
    var top := TopBid(db.bids, a.id);
    db.auctions := db.auctions[id := a.(status := ENDED, winnerBidId := TopBidId(db.bids, a.id))];
    db.audit := db.audit + [AuditEntry(AUCTION_END, a.sellerId, a.id, TopAmount(db.bids, a.id))];
    mail := None;
    if top.Some? {
      if top.value.userId in db.users {
        mail := Some(WinnerMail(db.users[top.value.userId], a.title, top.value.amount));
      }
    }
  }

  /** Each id of `batch` names a row, and none occurs twice. */
  predicate Rows(auctions: seq<Auction>, batch: seq<AuctionId>)
  {
    InTable(auctions, batch) && forall i :: 0 <= i < |batch| ==> batch[i] !in batch[..i]
  }

  /** The tick's loop over the selection. */
  method CloseBatch(db: Ledger, batch: seq<AuctionId>) returns (mails: seq<WinnerMail>)
    requires Rows(db.auctions, batch)
    modifies db`auctions, db`audit
    ensures db.auctions == CloseAll(old(db.auctions), db.bids, batch)
    ensures db.audit == old(db.audit) + AuditFor(old(db.auctions), db.bids, batch)
    ensures mails == MailsFor(old(db.auctions), db.bids, db.users, batch)
  {
    ghost var before := db.auctions;
    mails := [];
    var i := 0;
    while i < |batch|
      invariant 0 <= i <= |batch|
      invariant db.auctions == CloseAll(before, db.bids, batch[..i])
      invariant db.audit == old(db.audit) + AuditFor(before, db.bids, batch[..i])
      invariant mails == MailsFor(before, db.bids, db.users, batch[..i])
    {
      mails := CloseNext(db, before, batch, i, mails, old(db.audit));
      i := i + 1;
    }
    assert batch[..i] == batch;
  }

  /** One turn of the tick's loop: the tables and mails after `i` turns become
      those after `i + 1`. */
  method CloseNext(db: Ledger, ghost before: seq<Auction>, batch: seq<AuctionId>, i: nat,
                   mails: seq<WinnerMail>, ghost audit: seq<AuditEntry>) returns (next: seq<WinnerMail>)
    requires Rows(before, batch) && i < |batch|
    requires db.auctions == CloseAll(before, db.bids, batch[..i])
    requires db.audit == audit + AuditFor(before, db.bids, batch[..i])
    requires mails == MailsFor(before, db.bids, db.users, batch[..i])
    modifies db`auctions, db`audit
    ensures db.auctions == CloseAll(before, db.bids, batch[..i + 1])
    ensures db.audit == audit + AuditFor(before, db.bids, batch[..i + 1])
    ensures next == MailsFor(before, db.bids, db.users, batch[..i + 1])
  {
    SweepStep(before, db.bids, db.users, batch, i);
    var mail := CloseOne(db, batch[i]);
    next := mails;
    if mail.Some? {
      next := next + [mail.value];
    }
  }

  /** One tick at time `now`. Returns the selection and the winner mails sent. */
  method Sweep(db: Ledger, now: Time) returns (batch: seq<AuctionId>, mails: seq<WinnerMail>)
    requires db.Valid()
    modifies db`auctions, db`audit
    ensures db.Valid() && Evolves(old(db.auctions), db.auctions)
    ensures batch == Batch(old(db.auctions), now)
    ensures db.auctions == CloseAll(old(db.auctions), db.bids, batch)
    ensures InTable(old(db.auctions), batch)
    ensures db.audit == old(db.audit) + AuditFor(old(db.auctions), db.bids, batch)
    ensures mails == MailsFor(old(db.auctions), db.bids, db.users, batch)
  {
    batch := SelectExpired(db.auctions, now);
    BatchRows(db.auctions, now);
    ConsistentAfterCloseAll(db.auctions, db.bids, batch);
    CloseAllEvolves(db.auctions, db.bids, now);
    mails := CloseBatch(db, batch);
  }

  /** After a tick every selected auction is ENDED, and its winner is a bid of
      it that no other bid of it outbids, or none exactly when it has no bids;
      every auction not selected is unchanged. */
  lemma SweepPicksHighest(auctions: seq<Auction>, bids: seq<Bid>, now: Time, k: AuctionId)
    requires Consistent(auctions, bids) && k < |auctions|
    ensures var after := CloseAll(auctions, bids, Batch(auctions, now));
      && (k !in Batch(auctions, now) ==> after[k] == auctions[k])
      && (k in Batch(auctions, now) ==>
          && after[k].status == ENDED
          && (after[k].winnerBidId.None? <==> forall b :: b in bids ==> b.auctionId != k)
          && (after[k].winnerBidId.Some? ==>
                var w := after[k].winnerBidId.value;
                w < |bids| && bids[w].auctionId == k
                && forall b :: b in bids && b.auctionId == k ==> b.amount <= bids[w].amount))
  {
    TopBidIsHighest(bids, k);
    if TopBid(bids, k).Some? {
      var t := TopBid(bids, k).value;
      var i :| 0 <= i < |bids| && bids[i] == t;
      assert t.id == i;
    }
  }

  /** Selection demands ACTIVE, so an ENDED auction is never picked up again. */
  lemma SweepNeverRecloses(auctions: seq<Auction>, now: Time, k: AuctionId)
    requires k < |auctions| && auctions[k].status == ENDED
    ensures k !in Batch(auctions, now)
  {
    BatchSpec(auctions, now);
  }

  /** A later tick (at any time) leaves an auction an earlier tick closed
      untouched and writes no audit row for it. */
  lemma LaterSweepSkipsClosed(auctions: seq<Auction>, bids: seq<Bid>, now: Time, later: Time, k: AuctionId)
    requires Consistent(auctions, bids)
    requires k < |auctions| && k in Batch(auctions, now)
    ensures
      var after := CloseAll(auctions, bids, Batch(auctions, now));
      var second := Batch(after, later);
      && k !in second
      && CloseAll(after, bids, second)[k] == after[k]
      && InTable(after, second)
      && (forall e :: e in AuditFor(after, bids, second) ==> e.auctionId != k)
  {
    var after := CloseAll(auctions, bids, Batch(auctions, now));
    var second := Batch(after, later);
    SweepNeverRecloses(after, later, k);
    BatchSpec(after, later);
    assert InTable(after, second) by {
      assert forall j :: 0 <= j < |second| ==> second[j] in second;
    }
    AuditForShape(after, bids, second);
    forall e | e in AuditFor(after, bids, second) ensures e.auctionId != k {
      var j :| 0 <= j < |second| && AuditFor(after, bids, second)[j] == e;
      assert second[j] in second;
      assert after[second[j]].id == second[j];
    }
  }

  /** Nor does a later tick mail the winner of an auction an earlier tick
      closed again: each of its mails belongs to an auction it selected, and
      that auction is another one. */
  lemma LaterSweepMailsSkipClosed(auctions: seq<Auction>, bids: seq<Bid>, users: map<UserId, string>,
                                  now: Time, later: Time, k: AuctionId)
    requires Consistent(auctions, bids)
    requires k < |auctions| && k in Batch(auctions, now)
    ensures
      var after := CloseAll(auctions, bids, Batch(auctions, now));
      var second := Batch(after, later);
      InTable(after, second) &&
      forall m :: m in MailsFor(after, bids, users, second) ==>
        exists j :: 0 <= j < |second| && second[j] != k && MailFor(after[second[j]], bids, users) == Some(m)
  {
    var after := CloseAll(auctions, bids, Batch(auctions, now));
    var second := Batch(after, later);
    LaterSweepSkipsClosed(auctions, bids, now, later, k);
    MailsSound(after, bids, users, second);
    forall m | m in MailsFor(after, bids, users, second)
      ensures exists j :: 0 <= j < |second| && second[j] != k && MailFor(after[second[j]], bids, users) == Some(m)
    {
      var j :| 0 <= j < |second| && MailFor(after[second[j]], bids, users) == Some(m);
      assert second[j] in second;
    }
  }

  lemma {:induction false} NothingExpired(auctions: seq<Auction>, now: Time, n: nat)
    requires n <= |auctions|
    requires forall k :: 0 <= k < n ==> !IsExpired(auctions[k], now)
    ensures ExpiredUpTo(auctions, now, n) == []
  {
    if n > 0 {
      NothingExpired(auctions, now, n - 1);
    }
  }

  /** When a tick's selection held every expired auction, a second tick at the
      same time selects nothing. */
  lemma SweepDrains(auctions: seq<Auction>, bids: seq<Bid>, now: Time)
    requires |ExpiredUpTo(auctions, now, |auctions|)| <= BATCH_SIZE
    ensures Batch(CloseAll(auctions, bids, Batch(auctions, now)), now) == []
  {
    var after := CloseAll(auctions, bids, Batch(auctions, now));
    ExpiredUpToSpec(auctions, now, |auctions|);
    NothingExpired(after, now, |after|);
  }
}

/** The database the handlers share: the auction, bid, user and audit tables.
    Row ids are row positions, so a new row's id is the table's length. */
module Ledger {
  import opened Model

  /** A row of the audit table. */
  datatype AuditEntry = AuditEntry(action: string, userId: UserId, auctionId: AuctionId, top: Option<int>)

  /** An ACTIVE auction has no winner yet; an ENDED one has its top bid as
      winner, or none when it received no bids. */
  predicate WinnerSettled(a: Auction, bids: seq<Bid>)
  {
    if a.status == ACTIVE then a.winnerBidId == None else a.winnerBidId == TopBidId(bids, a.id)
  }

  /** The table invariant: ids are positions, every bid belongs to an existing
      auction, and every winner is settled. */
  ghost predicate Consistent(auctions: seq<Auction>, bids: seq<Bid>)
  {
    && (forall k :: 0 <= k < |auctions| ==> auctions[k].id == k && WinnerSettled(auctions[k], bids))
    && (forall i :: 0 <= i < |bids| ==> bids[i].id == i && bids[i].auctionId < |auctions|)
  }

  /** How one auction row may change between two states: the deadline never
      moves back, an ENDED row never changes again, and nothing but status,
      deadline and winner ever changes. */
  predicate Successor(a: Auction, b: Auction)
  {
    && b.endsAt >= a.endsAt
    && (a.status == ENDED ==> b == a)
    && b == a.(status := b.status, endsAt := b.endsAt, winnerBidId := b.winnerBidId)
  }

  /** Rows are only added, and each existing row changes as Successor allows. */
  ghost predicate Evolves(before: seq<Auction>, after: seq<Auction>)
  {
    |before| <= |after| && forall k :: 0 <= k < |before| ==> Successor(before[k], after[k])
  }

  class Ledger {
    var auctions: seq<Auction>
    var bids: seq<Bid>
    var users: map<UserId, string>    // user id to e-mail address
    var audit: seq<AuditEntry>

    ghost predicate Valid()
      reads this
    {
      Consistent(auctions, bids)
    }

    constructor (users: map<UserId, string>)
      ensures Valid()
      ensures auctions == [] && bids == [] && audit == [] && this.users == users
    {
      auctions, bids, audit := [], [], [];
      this.users := users;
    }

    /** `findUnique` on the auction table. */
    function Lookup(id: AuctionId): Option<Auction>
      reads this
    {
      if id < |auctions| then Some(auctions[id]) else None
    }
  }

  /** Storing a new bid for an ACTIVE auction keeps the tables consistent: it
      cannot disturb the settled winner of any ENDED auction. */
  lemma ConsistentAfterBid(auctions: seq<Auction>, bids: seq<Bid>, b: Bid)
    requires Consistent(auctions, bids)
    requires b.id == |bids| && b.auctionId < |auctions| && auctions[b.auctionId].status == ACTIVE
    ensures Consistent(auctions, bids + [b])
  {
    forall k | 0 <= k < |auctions| && auctions[k].status == ENDED
      ensures TopBidId(bids + [b], k) == TopBidId(bids, k)
    {
      TopBidAppendOther(bids, b, k);
    }
  }

  /** A new ACTIVE auction without winner, at the next id, keeps the tables consistent. */
  lemma ConsistentAfterAdd(auctions: seq<Auction>, bids: seq<Bid>, a: Auction)
    requires Consistent(auctions, bids)
    requires a.id == |auctions| && a.status == ACTIVE && a.winnerBidId == None
    ensures Consistent(auctions + [a], bids)
    ensures Evolves(auctions, auctions + [a])
  {
  }

  /** A freshly added auction has no bids: every stored bid points at an older auction. */
  lemma FreshAuctionHasNoBids(auctions: seq<Auction>, bids: seq<Bid>)
    requires Consistent(auctions, bids)
    ensures BidsOf(bids, |auctions|) == []
    ensures TopBid(bids, |auctions|) == None
  {
    BidsOfMembers(bids, |auctions|);
    assert forall b :: b in bids ==> b.auctionId < |auctions|;
    HighestIsMaximum(BidsOf(bids, |auctions|));
  }
}

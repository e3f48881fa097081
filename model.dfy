/** Values of the auction platform: auctions, bids and the rules both bid
    channels share (who holds the top bid, when an auction takes bids, how far
    a late bid pushes the deadline). Money is in grosze, time in milliseconds. */
module Model {

  datatype Option<+T> = None | Some(value: T)

  type Time = int          // milliseconds since the epoch
  type AuctionId = nat     // the row's position in the auction table
  type BidId = nat         // the row's position in the bid table
  type UserId = string

  /** Anti-sniping window and extension: two minutes. */
  const ANTI_SNIPE_MS: int := 120_000

  datatype Status = ACTIVE | ENDED

  datatype Image = Image(url: string, position: nat)

  datatype Auction = Auction(
    id: AuctionId,
    title: string,
    description: string,
    basePrice: int,
    minIncrement: int,
    reservePrice: Option<int>,
    condition: string,
    personalPickup: bool,
    courierShipping: bool,
    invoice: bool,
    status: Status,
    startsAt: Time,
    endsAt: Time,
    sellerId: UserId,
    winnerBidId: Option<BidId>,
    images: seq<Image>)

  datatype Bid = Bid(id: BidId, amount: int, userId: UserId, auctionId: AuctionId, createdAt: Time)

  /** A bid amount after parsing: whole grosze, or a value that is not finite (NaN, Infinity). */
  datatype Amount = Grosze(value: int) | NotFinite

  /** An auction takes bids while ACTIVE and `now` lies in [startsAt, endsAt], both ends included. */
  predicate IsActive(a: Auction, now: Time)
  {
    a.status == ACTIVE && a.startsAt <= now <= a.endsAt
  }

  /** The deadline after a bid accepted at `now`: two more minutes when at most
      two minutes were left, otherwise unchanged. */
  function Extended(endsAt: Time, now: Time): (r: Time)
    ensures r >= endsAt
    ensures r != endsAt <==> endsAt - now <= ANTI_SNIPE_MS
    ensures r != endsAt ==> r == endsAt + ANTI_SNIPE_MS
  {
    if endsAt - now <= ANTI_SNIPE_MS then endsAt + ANTI_SNIPE_MS else endsAt
  }

  /** The bids of auction `id`, in table order. */
  function BidsOf(bids: seq<Bid>, id: AuctionId): (r: seq<Bid>)
  {
    if bids == [] then []
    else BidsOf(bids[..|bids| - 1], id) + (if bids[|bids| - 1].auctionId == id then [bids[|bids| - 1]] else [])
  }

  /** The first bid of `s` with the largest amount (the database's "order by
      amount desc, take 1"; among equal amounts the earlier row is kept). */
  function Highest(s: seq<Bid>): (r: Option<Bid>)
  {
    if s == [] then None
    else
      var rest := Highest(s[..|s| - 1]);
      if rest.None? || s[|s| - 1].amount > rest.value.amount then Some(s[|s| - 1]) else rest
  }

  function TopBid(bids: seq<Bid>, id: AuctionId): Option<Bid>
  {
    Highest(BidsOf(bids, id))
  }

  function TopAmount(bids: seq<Bid>, id: AuctionId): Option<int>
  {
    match TopBid(bids, id)
    case None => None
    case Some(b) => Some(b.amount)
  }

  function TopBidId(bids: seq<Bid>, id: AuctionId): Option<BidId>
  {
    match TopBid(bids, id)
    case None => None
    case Some(b) => Some(b.id)
  }

  lemma {:induction false} BidsOfMembers(bids: seq<Bid>, id: AuctionId)
    ensures forall b :: b in BidsOf(bids, id) <==> b in bids && b.auctionId == id
  {
    if bids != [] {
      BidsOfMembers(bids[..|bids| - 1], id);
      assert bids == bids[..|bids| - 1] + [bids[|bids| - 1]];
    }
  }

  /** Highest finds nothing exactly on the empty sequence, and otherwise a member
      whose amount no other member exceeds. */
  lemma {:induction false} HighestIsMaximum(s: seq<Bid>)
    ensures Highest(s).None? <==> s == []
    ensures Highest(s).Some? ==> Highest(s).value in s
    ensures Highest(s).Some? ==> forall b :: b in s ==> b.amount <= Highest(s).value.amount
  {
    if s != [] {
      HighestIsMaximum(s[..|s| - 1]);
      assert s == s[..|s| - 1] + [s[|s| - 1]];
    }
  }

  /** The top bid of an auction is one of its bids, with an amount no bid of it
      exceeds; there is none exactly when the auction has no bids. */
  lemma TopBidIsHighest(bids: seq<Bid>, id: AuctionId)
    ensures TopBid(bids, id).None? <==> (forall b :: b in bids ==> b.auctionId != id)
    ensures TopBid(bids, id).Some? ==>
      var t := TopBid(bids, id).value;
      t in bids && t.auctionId == id && forall b :: b in bids && b.auctionId == id ==> b.amount <= t.amount
  {
    BidsOfMembers(bids, id);
    HighestIsMaximum(BidsOf(bids, id));
    if BidsOf(bids, id) != [] {
      assert BidsOf(bids, id)[0] in BidsOf(bids, id);
    }
  }

  /** Appending a bid of another auction leaves this auction's top bid alone. */
  lemma TopBidAppendOther(bids: seq<Bid>, b: Bid, id: AuctionId)
    requires b.auctionId != id
    ensures TopBid(bids + [b], id) == TopBid(bids, id)
  {
    assert (bids + [b])[..|bids|] == bids;
    assert BidsOf(bids + [b], id) == BidsOf(bids, id);
  }

  /** Appending a bid above every bid of its auction makes it the top bid. */
  lemma TopBidAppendHigher(bids: seq<Bid>, b: Bid)
    requires forall c :: c in bids && c.auctionId == b.auctionId ==> c.amount < b.amount
    ensures TopBid(bids + [b], b.auctionId) == Some(b)
  {
    var id := b.auctionId;
    assert (bids + [b])[..|bids|] == bids;
    assert BidsOf(bids + [b], id) == BidsOf(bids, id) + [b];
    assert (BidsOf(bids, id) + [b])[..|BidsOf(bids, id)|] == BidsOf(bids, id);
    TopBidIsHighest(bids, id);
  }
}

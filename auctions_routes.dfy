/** The auction HTTP routes: placing a bid, the lightweight top-status query,
    the admin overview, creating and relisting an auction, and the winner readout. */
module AuctionsRoutes {
  import opened Model
  import opened Ledger

  // ------------------------------------------------------------------ bid

  /** The HTTP channel's minimum: the larger of the base price and the top bid
      (0 when there is none), plus the increment. */
  function MinRequired(basePrice: int, minIncrement: int, top: Option<int>): (r: int)
    ensures r >= basePrice + minIncrement
    ensures top.Some? ==> r >= top.value + minIncrement
    ensures top.None? ==> r >= minIncrement
    ensures r == basePrice + minIncrement || (top.Some? && r == top.value + minIncrement) || (top.None? && r == minIncrement)
  {
    var t := match top case Some(v) => v case None => 0;
    (if basePrice >= t then basePrice else t) + minIncrement
  }

  datatype BidResponse =
    | BadAmount                          // 400 "Kwota nieprawidłowa"
    | NotFound                           // 404
    | Inactive                           // 400 "Aukcja nieaktywna"
    | BelowMinimum(min: int)             // 400, message carries the minimum
    | Placed(topAmount: int, endsAt: Time)
  {
    /** The HTTP status the handler answers with. */
    function Code(): int
    {
      if Placed? then 200 else if NotFound? then 404 else 400
    }
  }

  /** The bid handler's decision, from the auction row (if any), its top bid
      amount (if any), the parsed amount and the clock. */
  function JudgeBid(a: Option<Auction>, top: Option<int>, amount: Amount, now: Time): (r: BidResponse)
    ensures amount.NotFinite? ==> r == BadAmount
    ensures amount.Grosze? && a.None? ==> r == NotFound
    ensures amount.Grosze? && a.Some? && !IsActive(a.value, now) ==> r == Inactive
    ensures r.BelowMinimum? ==>
      a.Some? && amount.Grosze? && r.min == MinRequired(a.value.basePrice, a.value.minIncrement, top) && amount.value < r.min
    ensures r.Placed? <==>
      a.Some? && amount.Grosze? && IsActive(a.value, now) && amount.value >= MinRequired(a.value.basePrice, a.value.minIncrement, top)
    ensures amount.Grosze? && a.Some? && IsActive(a.value, now)
            && amount.value < MinRequired(a.value.basePrice, a.value.minIncrement, top) ==>
      r == BelowMinimum(MinRequired(a.value.basePrice, a.value.minIncrement, top))
    ensures r.Placed? ==> r.topAmount == amount.value && r.endsAt == Extended(a.value.endsAt, now)
    ensures r.Code() == 404 <==> amount.Grosze? && a.None?
    ensures r.Code() == 200 <==> r.Placed?
    ensures r.Code() == 400 <==> amount.NotFinite? || (a.Some? && !r.Placed?)
  {
    if amount.NotFinite? then BadAmount
    else if a.None? then NotFound
    else if !IsActive(a.value, now) then Inactive
    else
      var min := MinRequired(a.value.basePrice, a.value.minIncrement, top);
      if amount.value < min then BelowMinimum(min)
      else Placed(amount.value, Extended(a.value.endsAt, now))
  }

  /** POST /:id/bid for an authenticated user. */
  method PlaceBid(db: Ledger, auctionId: AuctionId, userId: UserId, amount: Amount, now: Time) returns (r: BidResponse)
    requires db.Valid()
    modifies db`bids, db`auctions
    ensures db.Valid()
    ensures r == JudgeBid(old(db.Lookup(auctionId)), old(TopAmount(db.bids, auctionId)), amount, now)
    ensures r.Placed? ==>
      && db.bids == old(db.bids) + [Bid(|old(db.bids)|, amount.value, userId, auctionId, now)]
      && db.auctions == old(db.auctions)[auctionId := old(db.auctions)[auctionId].(endsAt := r.endsAt)]
    ensures !r.Placed? ==> db.bids == old(db.bids) && db.auctions == old(db.auctions)
    ensures Evolves(old(db.auctions), db.auctions)
  {
    if amount.NotFinite? {
      return BadAmount;
    }
    if auctionId >= |db.auctions| {
      return NotFound;
    }
    var a := db.auctions[auctionId];
    if !IsActive(a, now) {
      return Inactive;
    }
    var min := MinRequired(a.basePrice, a.minIncrement, TopAmount(db.bids, auctionId));
    if amount.value < min {
      return BelowMinimum(min);
    }
    var bid := Bid(|db.bids|, amount.value, userId, auctionId, now);
    ConsistentAfterBid(db.auctions, db.bids, bid);
    db.bids := db.bids + [bid];
    var endsAt := a.endsAt;
    if a.endsAt - now <= ANTI_SNIPE_MS {
      endsAt := a.endsAt + ANTI_SNIPE_MS;
      db.auctions := db.auctions[auctionId := a.(endsAt := endsAt)];
    }
    r := Placed(amount.value, endsAt);
  }

  /** With a positive increment, a bid the HTTP channel accepts is strictly above
      every earlier bid of the auction and becomes its top bid. */
  lemma PlacedBidBecomesTop(bids: seq<Bid>, a: Auction, amount: int, userId: UserId, now: Time)
    requires a.minIncrement > 0
    requires JudgeBid(Some(a), TopAmount(bids, a.id), Grosze(amount), now).Placed?
    ensures forall b :: b in bids && b.auctionId == a.id ==> b.amount < amount
    ensures TopBid(bids + [Bid(|bids|, amount, userId, a.id, now)], a.id) == Some(Bid(|bids|, amount, userId, a.id, now))
  {
    TopBidIsHighest(bids, a.id);
    TopBidAppendHigher(bids, Bid(|bids|, amount, userId, a.id, now));
  }

  /** Without a positive increment the rule admits a bid equal to the top bid,
      whenever that top bid is at or above the base price. */
  lemma ZeroIncrementAdmitsTie(a: Auction, t: int, now: Time)
    requires IsActive(a, now) && a.minIncrement == 0 && t >= a.basePrice
    ensures JudgeBid(Some(a), Some(t), Grosze(t), now).Placed?
  {
  }

  // ------------------------------------------------------------ top status

  datatype TopResponse =
    | TopNotFound
    | TopInfo(topAmount: int, minIncrement: int, endsAt: Time, status: Status)

  /** GET /:id/top: the current top amount (the larger of the base price and
      the top bid, counting a missing top bid as 0) with the increment,
      deadline and status. The next acceptable bid is that amount plus the
      increment, as the bid route demands. */
  function TopStatus(db: Ledger, id: AuctionId): (r: TopResponse)
    reads db
    ensures r.TopNotFound? <==> id >= |db.auctions|
    ensures r.TopInfo? ==>
      var a := db.auctions[id];
      && r.minIncrement == a.minIncrement && r.endsAt == a.endsAt && r.status == a.status
      && r.topAmount >= a.basePrice
      && r.topAmount + a.minIncrement == MinRequired(a.basePrice, a.minIncrement, TopAmount(db.bids, id))
      && (forall b :: b in db.bids && b.auctionId == id ==> b.amount <= r.topAmount)
      && (r.topAmount == a.basePrice || r.topAmount == 0 || exists b :: b in db.bids && b.auctionId == id && b.amount == r.topAmount)
  {
    if id >= |db.auctions| then TopNotFound
    else
      var a := db.auctions[id];
      TopBidIsHighest(db.bids, id);
      var t := match TopBid(db.bids, id) case Some(b) => b.amount case None => 0;
      TopInfo(if a.basePrice >= t then a.basePrice else t, a.minIncrement, a.endsAt, a.status)
  }

  // -------------------------------------------------------- admin overview

  /** The auctions with status `st`, in table order. */
  function WithStatus(s: seq<Auction>, st: Status): (r: seq<Auction>)
    ensures forall a :: a in r <==> a in s && a.status == st
  {
    if s == [] then [] else (if s[0].status == st then [s[0]] else []) + WithStatus(s[1..], st)
  }

  /** The filter keeps every copy of a matching auction and drops every copy of another. */
  lemma {:induction false} WithStatusCounts(s: seq<Auction>, st: Status)
    ensures forall a :: multiset(WithStatus(s, st))[a] == if a.status == st then multiset(s)[a] else 0
  {
    if s != [] {
      WithStatusCounts(s[1..], st);
      assert s == [s[0]] + s[1..];
    }
  }

  predicate HasBids(bids: seq<Bid>, id: AuctionId)
  {
    BidsOf(bids, id) != []
  }

  /** The auctions of `s` that have bids (`withBids`) or that have none. */
  function ByBids(s: seq<Auction>, bids: seq<Bid>, withBids: bool): (r: seq<Auction>)
    ensures forall a :: a in r <==> a in s && HasBids(bids, a.id) == withBids
  {
    if s == [] then []
    else (if HasBids(bids, s[0].id) == withBids then [s[0]] else []) + ByBids(s[1..], bids, withBids)
  }

  /** The two halves of the split together hold every auction of `s` exactly once. */
  lemma {:induction false} ByBidsSplits(s: seq<Auction>, bids: seq<Bid>)
    ensures multiset(ByBids(s, bids, true)) + multiset(ByBids(s, bids, false)) == multiset(s)
  {
    if s != [] {
      var h, t := s[0], s[1..];
      ByBidsSplits(t, bids);
      assert s == [h] + t;
      if HasBids(bids, h.id) {
        assert ByBids(s, bids, true) == [h] + ByBids(t, bids, true);
        assert ByBids(s, bids, false) == ByBids(t, bids, false);
      } else {
        assert ByBids(s, bids, true) == ByBids(t, bids, true);
        assert ByBids(s, bids, false) == [h] + ByBids(t, bids, false);
      }
    }
  }

  predicate Before(a: Auction, b: Auction, desc: bool)
  {
    if desc then a.endsAt >= b.endsAt else a.endsAt <= b.endsAt
  }

  /** Sorted by deadline, ascending or (`desc`) descending. */
  predicate Ordered(s: seq<Auction>, desc: bool)
  {
    forall i, j :: 0 <= i < j < |s| ==> Before(s[i], s[j], desc)
  }

  function Insert(x: Auction, s: seq<Auction>, desc: bool): (r: seq<Auction>)
    requires Ordered(s, desc)
    ensures Ordered(r, desc)
    ensures multiset(r) == multiset(s) + multiset{x}
  {
    if s == [] then [x]
    else if Before(x, s[0], desc) then
      OrderedCons(x, s, desc);
      [x] + s
    else
      var rest := Insert(x, s[1..], desc);
      assert s == [s[0]] + s[1..];
      HeadPrecedes(x, s, rest, desc);
      OrderedCons(s[0], rest, desc);
      [s[0]] + rest
  }

  /** When `x` does not go before the head of `s`, the head goes before `x` and
      before everything after it. */
  lemma HeadPrecedes(x: Auction, s: seq<Auction>, rest: seq<Auction>, desc: bool)
    requires Ordered(s, desc) && s != [] && !Before(x, s[0], desc)
    requires multiset(rest) == multiset(s[1..]) + multiset{x}
    ensures forall y :: y in rest ==> Before(s[0], y, desc)
  {
    forall y | y in rest ensures Before(s[0], y, desc) {
      assert y in multiset(rest);
      if y != x {
        assert y in multiset(s[1..]);
        var j :| 0 <= j < |s[1..]| && s[1..][j] == y;
        assert s[j + 1] == y;
      }
    }
  }

  lemma OrderedCons(h: Auction, t: seq<Auction>, desc: bool)
    requires Ordered(t, desc)
    requires forall y :: y in t ==> Before(h, y, desc)
    ensures Ordered([h] + t, desc)
  {
    forall i, j | 0 <= i < j < |[h] + t| ensures Before(([h] + t)[i], ([h] + t)[j], desc) {
      if i > 0 {
        assert ([h] + t)[i] == t[i - 1] && ([h] + t)[j] == t[j - 1];
      } else {
        assert ([h] + t)[j] in t;
      }
    }
  }

  /** The database's "order by endsAt": a sorted permutation of `s`. */
  function SortByEndsAt(s: seq<Auction>, desc: bool): (r: seq<Auction>)
    ensures Ordered(r, desc)
    ensures multiset(r) == multiset(s)
  {
    if s == [] then []
    else
      assert s == [s[0]] + s[1..];
      Insert(s[0], SortByEndsAt(s[1..], desc), desc)
  }

  datatype Overview = Overview(active: seq<Auction>, ended: seq<Auction>, noBids: seq<Auction>)

  /** GET /admin/overview: the ACTIVE auctions by deadline ascending; the ENDED
      ones by deadline descending, split into those with and without bids. */
  function AdminOverview(auctions: seq<Auction>, bids: seq<Bid>): (r: Overview)
    ensures Ordered(r.active, false) && multiset(r.active) == multiset(WithStatus(auctions, ACTIVE))
    ensures forall a :: a in r.active <==> a in auctions && a.status == ACTIVE
    ensures forall a :: a in r.ended <==> a in auctions && a.status == ENDED && HasBids(bids, a.id)
    ensures forall a :: a in r.noBids <==> a in auctions && a.status == ENDED && !HasBids(bids, a.id)
    ensures multiset(r.ended) + multiset(r.noBids) == multiset(WithStatus(auctions, ENDED))
    ensures Ordered(r.ended, true) && Ordered(r.noBids, true)
  {
    var ended := SortByEndsAt(WithStatus(auctions, ENDED), true);
    var active := SortByEndsAt(WithStatus(auctions, ACTIVE), false);
    assert forall a :: a in active <==> a in multiset(active);
    assert forall a :: a in ended <==> a in multiset(ended);
    var r := Overview(active, ByBids(ended, bids, true), ByBids(ended, bids, false));
    ByBidsSplits(ended, bids);
    assert forall i, j :: 0 <= i < j < |r.ended| ==> Before(r.ended[i], r.ended[j], true) by {
      FilterKeepsOrder(ended, bids, true);
    }
    FilterKeepsOrder(ended, bids, false);
    r
  }

  lemma {:induction false} FilterKeepsOrder(s: seq<Auction>, bids: seq<Bid>, withBids: bool)
    requires Ordered(s, true)
    ensures Ordered(ByBids(s, bids, withBids), true)
  {
    if s != [] {
      FilterKeepsOrder(s[1..], bids, withBids);
      var rest := ByBids(s[1..], bids, withBids);
      forall y | y in rest ensures Before(s[0], y, true) {
        var j :| 0 <= j < |s[1..]| && s[1..][j] == y;
        assert s[j + 1] == y;
      }
      OrderedCons(s[0], rest, true);
    }
  }

  // --------------------------------------------------- create and relist

  /** A form value: Absent when the value is falsy (missing, null, empty, 0,
      false), otherwise the value it converts to (a price in grosze, a date in
      milliseconds). */
  datatype Field<T> = Absent | Given(value: T)

  datatype CreateForm = CreateForm(
    title: string,
    description: string,
    basePricePLN: Field<int>,
    minIncrementPLN: Field<int>,
    reservePricePLN: Field<int>,
    condition: string,
    personalPickup: string,
    courierShipping: string,
    invoice: string,
    startsAt: Field<Time>,
    endsAt: Field<Time>)

  datatype RelistForm = RelistForm(
    basePricePLN: Field<int>,
    minIncrementPLN: Field<int>,
    startsAt: Field<Time>,
    endsAt: Field<Time>)

  datatype ListingResponse =
    | MissingFields          // 400
    | ListingNotFound        // 404
    | Created(auction: Auction)

  predicate CreateComplete(f: CreateForm)
  {
    f.title != "" && f.description != "" && f.basePricePLN.Given? && f.minIncrementPLN.Given?
    && f.startsAt.Given? && f.endsAt.Given? && f.condition != ""
  }

  predicate RelistComplete(f: RelistForm)
  {
    f.basePricePLN.Given? && f.minIncrementPLN.Given? && f.startsAt.Given? && f.endsAt.Given?
  }

  /** The uploaded files as images, numbered in upload order. */
  function UploadedImages(files: seq<string>): (r: seq<Image>)
    ensures |r| == |files|
    ensures forall i :: 0 <= i < |r| ==> r[i].position == i && r[i].url == "/uploads/" + files[i]
  {
    seq(|files|, i requires 0 <= i < |files| => Image("/uploads/" + files[i], i))
  }

  /** A new auction that takes bids from its start: ACTIVE, without winner. */
  predicate Opens(a: Auction, id: AuctionId)
  {
    a.id == id && a.status == ACTIVE && a.winnerBidId == None
  }

  /** Everything that describes the item and its seller, as opposed to the
      pricing, the time window and the bidding state. */
  predicate SameListing(a: Auction, b: Auction)
  {
    && a.title == b.title && a.description == b.description && a.reservePrice == b.reservePrice
    && a.condition == b.condition && a.personalPickup == b.personalPickup
    && a.courierShipping == b.courierShipping && a.invoice == b.invoice
    && a.sellerId == b.sellerId && a.images == b.images
  }

  function NewListing(id: AuctionId, f: CreateForm, sellerId: UserId, files: seq<string>): (r: Auction)
    requires CreateComplete(f)
    ensures Opens(r, id) && r.sellerId == sellerId && r.images == UploadedImages(files)
    ensures r.basePrice == f.basePricePLN.value && r.minIncrement == f.minIncrementPLN.value
    ensures r.startsAt == f.startsAt.value && r.endsAt == f.endsAt.value
    ensures r.title == f.title && r.description == f.description && r.condition == f.condition
    ensures r.reservePrice == (if f.reservePricePLN.Given? then Some(f.reservePricePLN.value) else None)
    ensures r.personalPickup <==> f.personalPickup == "true"
    ensures r.courierShipping <==> f.courierShipping == "true"
    ensures r.invoice <==> f.invoice == "true"
  {
    Auction(
      id, f.title, f.description, f.basePricePLN.value, f.minIncrementPLN.value,
      match f.reservePricePLN case Given(p) => Some(p) case Absent => None,
      f.condition, f.personalPickup == "true", f.courierShipping == "true", f.invoice == "true",
      ACTIVE, f.startsAt.value, f.endsAt.value, sellerId, None, UploadedImages(files))
  }

  function Relisted(id: AuctionId, prev: Auction, f: RelistForm): (r: Auction)
    requires RelistComplete(f)
    ensures Opens(r, id) && SameListing(prev, r)
    ensures r.basePrice == f.basePricePLN.value && r.minIncrement == f.minIncrementPLN.value
    ensures r.startsAt == f.startsAt.value && r.endsAt == f.endsAt.value
  {
    prev.(id := id, basePrice := f.basePricePLN.value, minIncrement := f.minIncrementPLN.value,
          status := ACTIVE, startsAt := f.startsAt.value, endsAt := f.endsAt.value, winnerBidId := None)
  }

  /** POST / by an admin. */
  method CreateAuction(db: Ledger, sellerId: UserId, f: CreateForm, files: seq<string>) returns (r: ListingResponse)
    requires db.Valid()
    modifies db`auctions
    ensures db.Valid() && Evolves(old(db.auctions), db.auctions)
    ensures r.MissingFields? <==> !CreateComplete(f)
    ensures r.MissingFields? ==> db.auctions == old(db.auctions)
    ensures r.Created? ==>
      && r.auction == NewListing(|old(db.auctions)|, f, sellerId, files)
      && db.auctions == old(db.auctions) + [r.auction]
    ensures !r.ListingNotFound?
  {
    if !CreateComplete(f) {
      return MissingFields;
    }
    var a := NewListing(|db.auctions|, f, sellerId, files);
    ConsistentAfterAdd(db.auctions, db.bids, a);
    db.auctions := db.auctions + [a];
    r := Created(a);
  }

  /** POST /:id/relist by an admin: a new auction for the same item. */
  method Relist(db: Ledger, id: AuctionId, f: RelistForm) returns (r: ListingResponse)
    requires db.Valid()
    modifies db`auctions
    ensures db.Valid() && Evolves(old(db.auctions), db.auctions)
    ensures r.MissingFields? <==> !RelistComplete(f)
    ensures r.ListingNotFound? <==> RelistComplete(f) && id >= |old(db.auctions)|
    ensures !r.Created? ==> db.auctions == old(db.auctions)
    ensures r.Created? ==>
      && r.auction == Relisted(|old(db.auctions)|, old(db.auctions)[id], f)
      && db.auctions == old(db.auctions) + [r.auction]
  {
    if !RelistComplete(f) {
      return MissingFields;
    }
    if id >= |db.auctions| {
      return ListingNotFound;
    }
    var a := Relisted(|db.auctions|, db.auctions[id], f);
    ConsistentAfterAdd(db.auctions, db.bids, a);
    db.auctions := db.auctions + [a];
    r := Created(a);
  }

  /** A relisted auction starts with no bids and no winner, whatever the old one had. */
  lemma RelistStartsClean(auctions: seq<Auction>, bids: seq<Bid>, id: AuctionId, f: RelistForm)
    requires Consistent(auctions, bids) && id < |auctions| && RelistComplete(f)
    ensures TopBid(bids, Relisted(|auctions|, auctions[id], f).id) == None
    ensures Consistent(auctions + [Relisted(|auctions|, auctions[id], f)], bids)
  {
    FreshAuctionHasNoBids(auctions, bids);
    ConsistentAfterAdd(auctions, bids, Relisted(|auctions|, auctions[id], f));
  }

  // ------------------------------------------------------- winner readout

  datatype WinnerResponse =
    | WinnerNotFound                           // 404
    | StillRunning                             // 400 "Aukcja jeszcze trwa"
    | Winner(amount: Option<int>, user: Option<UserId>)

  /** GET /:id/winner: the winning bid's amount and bidder once the auction has
      ended. In a consistent ledger that is always the auction's top bid. */
  function WinnerOf(db: Ledger, id: AuctionId): (r: WinnerResponse)
    reads db
    requires db.Valid()
    ensures r.WinnerNotFound? <==> id >= |db.auctions|
    ensures r.StillRunning? <==> id < |db.auctions| && db.auctions[id].status != ENDED
    ensures r.Winner? ==> r.amount == TopAmount(db.bids, id)
    ensures r.Winner? ==> r.user == (match TopBid(db.bids, id) case Some(b) => Some(b.userId) case None => None)
  {
    if id >= |db.auctions| then WinnerNotFound
    else
      var a := db.auctions[id];
      if a.status != ENDED then StillRunning
      else match a.winnerBidId
        case None => Winner(None, None)
        case Some(w) =>
          WinnerBidIsStored(db.bids, id);
          Winner(Some(db.bids[w].amount), Some(db.bids[w].userId))
  }

  /** The top bid's id is its position in the bid table. */
  lemma WinnerBidIsStored(bids: seq<Bid>, id: AuctionId)
    requires forall i :: 0 <= i < |bids| ==> bids[i].id == i
    ensures TopBid(bids, id).Some? ==> TopBid(bids, id).value.id < |bids| && bids[TopBid(bids, id).value.id] == TopBid(bids, id).value
  {
    TopBidIsHighest(bids, id);
  }
}

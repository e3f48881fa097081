/** The real-time bid channel: sockets join an auction's room, and a
    `place-bid` event is judged, stored, and announced to the room. */
module Bidding {
  import opened Model
  import opened Ledger
  import AuctionsRoutes

  type SocketId = nat

  /** The socket channel's minimum: the top bid, or the base price when there
      is none, plus the increment. It never exceeds the HTTP route's minimum. */
  function MinRequired(basePrice: int, minIncrement: int, top: Option<int>): (r: int)
    ensures r <= AuctionsRoutes.MinRequired(basePrice, minIncrement, top)
  {
    (match top case Some(t) => t case None => basePrice) + minIncrement
  }

  /** Why a `bid-error` was sent to the bidder. */
  datatype BidError =
    | AuctionMissing            // "Aukcja nie istnieje"
    | AuctionInactive           // "Aukcja nieaktywna"
    | BelowMinimum(min: int)    // "Minimalna oferta to … PLN"
    | ServerError               // "Błąd serwera przy licytacji"

  datatype Event =
    | BidErrorEvent(reason: BidError)
    | NewBid(amount: int, userId: UserId, createdAt: Time)
    | EndsAtUpdated(endsAt: Time)

  /** One emitted event and the sockets it reaches. */
  datatype Delivery = Delivery(to: set<SocketId>, event: Event)

  /** The `place-bid` payload; the bidder names itself, there is no session. */
  datatype Payload = Payload(auctionId: AuctionId, userId: UserId, amount: Amount)

  /** The storage call that throws, if any. */
  datatype Fault = NoFault | LookupFails | CreateFails | UpdateFails

  datatype Verdict =
    | Reject(reason: BidError)
    | Accept(newEndsAt: Option<Time>)   // the extended deadline, when there is one

  /** The handler's decision from the auction row (if any), its top bid amount
      (if any), the payload's amount and the clock. Activity is checked before
      the amount, and a non-finite amount is reported as being below the minimum. */
  function Judge(a: Option<Auction>, top: Option<int>, amount: Amount, now: Time): (r: Verdict)
    ensures a.None? ==> r == Reject(AuctionMissing)
    ensures a.Some? && !IsActive(a.value, now) ==> r == Reject(AuctionInactive)
    ensures r.Accept? <==>
      a.Some? && IsActive(a.value, now) && amount.Grosze? && amount.value >= MinRequired(a.value.basePrice, a.value.minIncrement, top)
    ensures r != Reject(ServerError)
    ensures a.Some? && IsActive(a.value, now)
            && (amount.NotFinite? || amount.value < MinRequired(a.value.basePrice, a.value.minIncrement, top)) ==>
      r == Reject(BelowMinimum(MinRequired(a.value.basePrice, a.value.minIncrement, top)))
    ensures r.Reject? && r.reason.BelowMinimum? ==>
      a.Some? && IsActive(a.value, now) && r.reason.min == MinRequired(a.value.basePrice, a.value.minIncrement, top)
      && (amount.NotFinite? || amount.value < r.reason.min)
    ensures r.Accept? ==>
      && (r.newEndsAt.Some? <==> a.value.endsAt - now <= ANTI_SNIPE_MS)
      && (r.newEndsAt.Some? ==> r.newEndsAt.value == Extended(a.value.endsAt, now) > a.value.endsAt)
  {
    if a.None? then Reject(AuctionMissing)
    else if !IsActive(a.value, now) then Reject(AuctionInactive)
    else
      var min := MinRequired(a.value.basePrice, a.value.minIncrement, top);
      if amount.NotFinite? || amount.value < min then Reject(BelowMinimum(min))
      else if a.value.endsAt - now <= ANTI_SNIPE_MS then Accept(Some(a.value.endsAt + ANTI_SNIPE_MS))
      else Accept(None)
  }

  /** The verdict for a payload against the ledger's current tables. */
  function VerdictFor(db: Ledger, p: Payload, now: Time): Verdict
    reads db
  {
    Judge(db.Lookup(p.auctionId), TopAmount(db.bids, p.auctionId), p.amount, now)
  }

  /** A `bid-error` sent to the bidder alone. */
  function ToSender(socket: SocketId, e: BidError): Delivery
  {
    Delivery({socket}, BidErrorEvent(e))
  }

  /** Rooms, and every event emitted so far in emission order. */
  class Hub {
    var rooms: map<AuctionId, set<SocketId>>
    var sent: seq<Delivery>

    constructor ()
      ensures rooms == map[] && sent == []
    {
      rooms, sent := map[], [];
    }

    /** The sockets in the room of auction `id`. */
    function Members(id: AuctionId): set<SocketId>
      reads this
    {
      if id in rooms then rooms[id] else {}
    }

    /** `join-auction`: the socket enters the room; nobody leaves it, nothing is emitted. */
    method Join(socket: SocketId, id: AuctionId)
      modifies this`rooms
      ensures Members(id) == old(Members(id)) + {socket}
      ensures forall other :: other != id ==> Members(other) == old(Members(other))
    {
      rooms := rooms[id := Members(id) + {socket}];
    }

    /** `place-bid`. The bid row and the deadline update are two separate
        writes: when the update throws, the stored bid stays and the bidder
        gets the server error instead of the broadcasts. */
    method PlaceBid(db: Ledger, socket: SocketId, p: Payload, now: Time, fault: Fault)
      requires db.Valid()
      modifies this`sent, db`bids, db`auctions
      ensures db.Valid() && Evolves(old(db.auctions), db.auctions)
      // a failed lookup, or a rejection, reaches the bidder only and writes nothing
      ensures fault == LookupFails ==>
        sent == old(sent) + [ToSender(socket, ServerError)] && db.bids == old(db.bids) && db.auctions == old(db.auctions)
      ensures fault != LookupFails && old(VerdictFor(db, p, now)).Reject? ==>
        sent == old(sent) + [ToSender(socket, old(VerdictFor(db, p, now)).reason)]
        && db.bids == old(db.bids) && db.auctions == old(db.auctions)
      // an accepted bid whose creation throws writes nothing
      ensures fault == CreateFails && old(VerdictFor(db, p, now)).Accept? ==>
        sent == old(sent) + [ToSender(socket, ServerError)] && db.bids == old(db.bids) && db.auctions == old(db.auctions)
      // otherwise exactly one bid row is stored, with the payload's fields
      ensures (fault == NoFault || fault == UpdateFails) && old(VerdictFor(db, p, now)).Accept? ==>
        db.bids == old(db.bids) + [Bid(|old(db.bids)|, p.amount.value, p.userId, p.auctionId, now)]
      ensures (fault == NoFault || fault == UpdateFails) && old(VerdictFor(db, p, now)) == Accept(None) ==>
        db.auctions == old(db.auctions)
        && sent == old(sent) + [Delivery(Members(p.auctionId), NewBid(p.amount.value, p.userId, now))]
      ensures fault == UpdateFails && old(VerdictFor(db, p, now)).Accept? && old(VerdictFor(db, p, now)).newEndsAt.Some? ==>
        db.auctions == old(db.auctions) && sent == old(sent) + [ToSender(socket, ServerError)]
      ensures fault == NoFault && old(VerdictFor(db, p, now)).Accept? && old(VerdictFor(db, p, now)).newEndsAt.Some? ==>
        var t := old(VerdictFor(db, p, now)).newEndsAt.value;
        && db.auctions == old(db.auctions)[p.auctionId := old(db.auctions)[p.auctionId].(endsAt := t)]
        && sent == old(sent) + [Delivery(Members(p.auctionId), NewBid(p.amount.value, p.userId, now)),
                                Delivery(Members(p.auctionId), EndsAtUpdated(t))]
    {
      if fault == LookupFails {
        sent := sent + [ToSender(socket, ServerError)];
        return;
      }
      var v := VerdictFor(db, p, now);
      if v.Reject? {
        sent := sent + [ToSender(socket, v.reason)];
        return;
      }
      if fault == CreateFails {
        sent := sent + [ToSender(socket, ServerError)];
        return;
      }
      var a := db.auctions[p.auctionId];
      var bid := Bid(|db.bids|, p.amount.value, p.userId, p.auctionId, now);
      ConsistentAfterBid(db.auctions, db.bids, bid);
      db.bids := db.bids + [bid];
      if v.newEndsAt.Some? {
        if fault == UpdateFails {
          sent := sent + [ToSender(socket, ServerError)];
          return;
        }
        db.auctions := db.auctions[p.auctionId := a.(endsAt := v.newEndsAt.value)];
      }
      sent := sent + [Delivery(Members(p.auctionId), NewBid(bid.amount, bid.userId, bid.createdAt))];
      if v.newEndsAt.Some? {
        sent := sent + [Delivery(Members(p.auctionId), EndsAtUpdated(v.newEndsAt.value))];
      }
    }
  }

  /** The two channels demand the same minimum exactly when the auction has no
      bids and a non-negative base price, or its top bid is at least the base price. */
  lemma MinimaAgree(basePrice: int, minIncrement: int, top: Option<int>)
    ensures AuctionsRoutes.MinRequired(basePrice, minIncrement, top) == MinRequired(basePrice, minIncrement, top)
            <==> (top.None? && basePrice >= 0) || (top.Some? && top.value >= basePrice)
  {
  }

  /** With a non-negative base price, and every bid of the
      auction at or above its base price, both channels accept the same finite
      amounts and move the deadline the same way. */
  lemma {:induction false} ChannelsAgree(a: Auction, bids: seq<Bid>, x: int, now: Time)
    requires a.basePrice >= 0
    requires forall b :: b in bids && b.auctionId == a.id ==> b.amount >= a.basePrice
    ensures var http := AuctionsRoutes.JudgeBid(Some(a), TopAmount(bids, a.id), Grosze(x), now);
            var socket := Judge(Some(a), TopAmount(bids, a.id), Grosze(x), now);
            && (http.Placed? <==> socket.Accept?)
            && (http.Placed? ==> http.endsAt == match socket.newEndsAt case Some(t) => t case None => a.endsAt)
  {
    TopBidIsHighest(bids, a.id);
    MinimaAgree(a.basePrice, a.minIncrement, TopAmount(bids, a.id));
  }

  /** An amount the socket channel accepts, for an auction whose bids are all
      at or above its base price, is at least the base price plus the
      increment. With a non-negative increment it is therefore at or above the
      base price itself: the premise of ChannelsAgree survives every bid. */
  lemma {:induction false} SocketKeepsPriceFloor(a: Auction, bids: seq<Bid>, x: int, now: Time)
    requires forall b :: b in bids && b.auctionId == a.id ==> b.amount >= a.basePrice
    requires Judge(Some(a), TopAmount(bids, a.id), Grosze(x), now).Accept?
    ensures x >= a.basePrice + a.minIncrement
    ensures a.minIncrement >= 0 ==> x >= a.basePrice
  {
    TopBidIsHighest(bids, a.id);
  }

  /** A negative increment breaks the floor: with a base price of 1 PLN, an
      increment of -0.50 PLN and no bids, the socket takes a bid of 0.50 PLN. */
  lemma NegativeIncrementBreaksFloor(a: Auction, now: Time)
    requires IsActive(a, now) && a.basePrice == 100 && a.minIncrement == -50
    ensures Judge(Some(a), None, Grosze(50), now).Accept? && 50 < a.basePrice
  {
  }

  /** With a positive increment, a bid the socket channel accepts is strictly
      above every earlier bid of the auction and becomes its top bid. */
  lemma {:induction false} SocketBidBecomesTop(bids: seq<Bid>, a: Auction, x: int, userId: UserId, now: Time)
    requires a.minIncrement > 0
    requires Judge(Some(a), TopAmount(bids, a.id), Grosze(x), now).Accept?
    ensures forall b :: b in bids && b.auctionId == a.id ==> b.amount < x
    ensures TopBid(bids + [Bid(|bids|, x, userId, a.id, now)], a.id) == Some(Bid(|bids|, x, userId, a.id, now))
  {
    TopBidIsHighest(bids, a.id);
    TopBidAppendHigher(bids, Bid(|bids|, x, userId, a.id, now));
  }

  /** A negative base price splits the channels: with no bids, an increment of
      1 PLN and a base price of -5 PLN, the socket takes a bid of 0 that the
      HTTP route refuses with a minimum of 1 PLN. */
  lemma NegativeBaseSplitsChannels(a: Auction, now: Time)
    requires IsActive(a, now) && a.basePrice == -500 && a.minIncrement == 100
    ensures AuctionsRoutes.JudgeBid(Some(a), None, Grosze(0), now) == AuctionsRoutes.BelowMinimum(100)
    ensures Judge(Some(a), None, Grosze(0), now).Accept?
  {
  }

  /** A socket that joined an auction's room hears every broadcast an accepted
      bid on that auction produces, whoever placed it. */
  method JoinedSocketHears(hub: Hub, db: Ledger, listener: SocketId, bidder: SocketId, p: Payload, now: Time)
    requires db.Valid() && VerdictFor(db, p, now).Accept?
    modifies hub, db`bids, db`auctions
    ensures |hub.sent| > old(|hub.sent|)
    ensures forall k :: old(|hub.sent|) <= k < |hub.sent| ==> listener in hub.sent[k].to
  {
    hub.Join(listener, p.auctionId);
    hub.PlaceBid(db, bidder, p, now, NoFault);
  }
}

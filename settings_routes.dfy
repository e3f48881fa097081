/** The platform settings: a single row with id 1, read by GET and replaced
    field by field by PATCH, PUT and POST, which share one handler. */
module SettingsRoutes {
  import opened Model

  /** The stored row (id 1). The GET and save responses echo exactly these five fields. */
  datatype SettingsRow = SettingsRow(
    maxActiveAuctions: int,
    maxWonAuctions: int,
    nextAuctionIso: Option<Time>,
    auctionCloseIso: Option<Time>,
    auctionCloseNoticeSec: int)

  /** A numeric body key: undefined, or present with the value `Number(…)` gives it. */
  datatype Field = Undefined | Given(value: int)

  /** A date alias key: falsy (missing, null, empty, 0, false), or truthy and naming the instant `new Date(…)` parses it to. */
  datatype DateAlias = Falsy | Truthy(at: Time)

  /** The request body, by the keys the handler reads. */
  datatype SettingsBody = SettingsBody(
    maxActiveAuctions: Field,
    maxWonAuctions: Field,
    max_won_auctions: Field,
    nextAuctionIso: DateAlias,
    nextAuctionAt: DateAlias,
    nextAuctionDate: DateAlias,
    nextAuction: DateAlias,
    auctionCloseIso: DateAlias,
    auctionCloseAt: DateAlias,
    auctionCloseDate: DateAlias,
    auctionClose: DateAlias,
    auctionCloseNoticeSec: Field)

  /** The body used when the request has none. */
  const EmptyBody: SettingsBody :=
    SettingsBody(Undefined, Undefined, Undefined, Falsy, Falsy, Falsy, Falsy, Falsy, Falsy, Falsy, Falsy, Undefined)

  function BodyOr(body: Option<SettingsBody>): SettingsBody
  {
    match body case Some(b) => b case None => EmptyBody
  }

  function NextAliases(b: SettingsBody): seq<DateAlias>
  {
    [b.nextAuctionIso, b.nextAuctionAt, b.nextAuctionDate, b.nextAuction]
  }

  function CloseAliases(b: SettingsBody): seq<DateAlias>
  {
    [b.auctionCloseIso, b.auctionCloseAt, b.auctionCloseDate, b.auctionClose]
  }

  /** The `||` chain over the aliases, ending in null: the first truthy alias's
      instant, or None when every alias is falsy. */
  function FirstTruthy(aliases: seq<DateAlias>): (r: Option<Time>)
    ensures r.None? <==> forall i :: 0 <= i < |aliases| ==> aliases[i].Falsy?
    ensures r.Some? ==> exists i :: 0 <= i < |aliases| && aliases[i] == Truthy(r.value)
                                    && forall j :: 0 <= j < i ==> aliases[j].Falsy?
  {
    if aliases == [] then None
    else if aliases[0].Truthy? then Some(aliases[0].at)
    else
      var r := FirstTruthy(aliases[1..]);
      assert forall i :: 1 <= i < |aliases| ==> aliases[i] == aliases[1..][i - 1];
      r
  }

  /** The update record: a field is Some when its key is written. The date
      fields may be written as null, hence the nested Option. */
  datatype Patch = Patch(
    maxActiveAuctions: Option<int>,
    maxWonAuctions: Option<int>,
    nextAuctionIso: Option<Option<Time>>,
    auctionCloseIso: Option<Option<Time>>,
    auctionCloseNoticeSec: Option<int>)

  function Supplied(f: Field): Option<int>
  {
    match f case Given(v) => Some(v) case Undefined => None
  }

  /** The update record a body asks for. */
  function PatchOf(body: Option<SettingsBody>): Patch
  {
    var b := BodyOr(body);
    Patch(
      Supplied(b.maxActiveAuctions),
      if b.max_won_auctions.Given? then Supplied(b.max_won_auctions) else Supplied(b.maxWonAuctions),
      Some(FirstTruthy(NextAliases(b))),
      Some(FirstTruthy(CloseAliases(b))),
      Supplied(b.auctionCloseNoticeSec))
  }

  /** The handler's construction of the update record, key by key. */
  method BuildPatch(body: Option<SettingsBody>) returns (data: Patch)
    ensures data == PatchOf(body)
    ensures data.nextAuctionIso.Some? && data.auctionCloseIso.Some?
  {
    var b := BodyOr(body);
    data := Patch(None, None, None, None, None);
    if b.maxActiveAuctions.Given? {
      data := data.(maxActiveAuctions := Some(b.maxActiveAuctions.value));
    }
    if b.maxWonAuctions.Given? {
      data := data.(maxWonAuctions := Some(b.maxWonAuctions.value));
    }
    if b.max_won_auctions.Given? {
      data := data.(maxWonAuctions := Some(b.max_won_auctions.value));
    }
    // the chain ends in null, so it is never undefined and the key is always written
    var iso := FirstTruthy(NextAliases(b));
    data := data.(nextAuctionIso := Some(iso));
    var closeIso := FirstTruthy(CloseAliases(b));
    data := data.(auctionCloseIso := Some(closeIso));
    if b.auctionCloseNoticeSec.Given? {
      data := data.(auctionCloseNoticeSec := Some(b.auctionCloseNoticeSec.value));
    }
  }

  function Pick<T>(written: Option<T>, kept: T): T
  {
    match written case Some(v) => v case None => kept
  }

  /** The row after an update: written fields replaced, the others kept. */
  function Merge(s: SettingsRow, p: Patch): SettingsRow
  {
    SettingsRow(
      Pick(p.maxActiveAuctions, s.maxActiveAuctions),
      Pick(p.maxWonAuctions, s.maxWonAuctions),
      Pick(p.nextAuctionIso, s.nextAuctionIso),
      Pick(p.auctionCloseIso, s.auctionCloseIso),
      Pick(p.auctionCloseNoticeSec, s.auctionCloseNoticeSec))
  }

  /** The settings table, holding at most the row with id 1; `defaults` are the
      column defaults a created row starts from. */
  class SettingsStore {
    var row: Option<SettingsRow>
    const defaults: SettingsRow

    constructor (defaults: SettingsRow)
      ensures row == None && this.defaults == defaults
    {
      row := None;
      this.defaults := defaults;
    }

    /** loadSettings: row 1, created from the defaults when missing. */
    method Load() returns (s: SettingsRow)
      modifies this`row
      ensures row == Some(s)
      ensures old(row).Some? ==> s == old(row).value
      ensures old(row).None? ==> s == defaults
    {
      if row.None? {
        row := Some(defaults);
      }
      s := row.value;
    }

    /** GET /: the (possibly just created) row. */
    method Get() returns (resp: SettingsRow)
      modifies this`row
      ensures row == Some(resp)
      ensures resp == (match old(row) case Some(s) => s case None => defaults)
    {
      resp := Load();
    }

    /** The save handler: upsert of row 1 with the body's update record, the
        created row starting from the defaults; the response is the stored row. */
    method Save(body: Option<SettingsBody>) returns (resp: SettingsRow)
      modifies this`row
      ensures resp == Merge(match old(row) case Some(s) => s case None => defaults, PatchOf(body))
      ensures row == Some(resp)
    {
      var data := BuildPatch(body);
      var current := if row.Some? then row.value else defaults;
      row := Some(Merge(current, data));
      resp := row.value;
    }
  }

  /** What a save stores, field by field: each number is the supplied value or
      the kept one, `max_won_auctions` taking precedence over `maxWonAuctions`,
      and each date is the first truthy alias, or null when there is none. */
  lemma SaveStores(s: SettingsRow, body: Option<SettingsBody>)
    ensures var r := Merge(s, PatchOf(body));
            var b := BodyOr(body);
            && r.maxActiveAuctions == (if b.maxActiveAuctions.Given? then b.maxActiveAuctions.value else s.maxActiveAuctions)
            && r.maxWonAuctions == (if b.max_won_auctions.Given? then b.max_won_auctions.value
                                    else if b.maxWonAuctions.Given? then b.maxWonAuctions.value
                                    else s.maxWonAuctions)
            && r.nextAuctionIso == FirstTruthy(NextAliases(b))
            && r.auctionCloseIso == FirstTruthy(CloseAliases(b))
            && r.auctionCloseNoticeSec == (if b.auctionCloseNoticeSec.Given? then b.auctionCloseNoticeSec.value else s.auctionCloseNoticeSec)
  {
  }

  /** A save whose body names no date alias clears both dates, whatever was stored. */
  lemma SaveWithoutDatesClearsThem(s: SettingsRow, body: Option<SettingsBody>)
    requires forall a :: a in NextAliases(BodyOr(body)) + CloseAliases(BodyOr(body)) ==> a == Falsy
    ensures Merge(s, PatchOf(body)).nextAuctionIso == None
    ensures Merge(s, PatchOf(body)).auctionCloseIso == None
  {
    var b := BodyOr(body);
    assert forall i :: 0 <= i < 4 ==> NextAliases(b)[i] in NextAliases(b) + CloseAliases(b);
    assert forall i :: 0 <= i < 4 ==> CloseAliases(b)[i] in NextAliases(b) + CloseAliases(b);
  }

  /** A save with no body keeps every number and clears both dates. */
  lemma EmptySave(s: SettingsRow)
    ensures Merge(s, PatchOf(None)) == s.(nextAuctionIso := None, auctionCloseIso := None)
  {
  }

  /** Saving the same body twice stores what saving it once does. */
  lemma SaveIdempotent(s: SettingsRow, body: Option<SettingsBody>)
    ensures Merge(Merge(s, PatchOf(body)), PatchOf(body)) == Merge(s, PatchOf(body))
  {
  }

  /** The stored dates do not depend on what was stored before: only the
      numbers can carry over from an earlier save. */
  lemma DatesForgetThePast(s: SettingsRow, t: SettingsRow, body: Option<SettingsBody>)
    ensures Merge(s, PatchOf(body)).nextAuctionIso == Merge(t, PatchOf(body)).nextAuctionIso
    ensures Merge(s, PatchOf(body)).auctionCloseIso == Merge(t, PatchOf(body)).auctionCloseIso
  {
  }

  /** When both spellings of the won-auctions limit are present, the snake-case one is stored. */
  lemma SnakeCaseWins(s: SettingsRow, b: SettingsBody, camel: int, snake: int)
    requires b.maxWonAuctions == Given(camel) && b.max_won_auctions == Given(snake)
    ensures Merge(s, PatchOf(Some(b))).maxWonAuctions == snake
  {
  }
}

/** The guardian store of bot/http.js: applications kept in a module-level `Map` keyed by
    applicant id, an admin-key gate, and the listing helper. Re-applying while an application
    is still pending refreshes its wallet and note but keeps its place in the queue (its
    creation time); any other application starts a fresh pending record. */
module BotHttp {
  import opened JsSemantics
  import opened Guardians

  /** The admin gate: the configured key (`ADMIN_API_KEY`, or the empty string when unset)
      must be non-empty and the `x-api-key` header must equal it. */
  function RequireAdmin(configured: Option<string>, header: Option<string>): (admitted: bool)
    ensures admitted <==> Truthy(configured) && header == configured
  {
    var key := if Truthy(configured) then configured.value else "";
    !(key == "" || header != Some(key))
  }

  /** The record an accepted application leaves under its id, given the record already
      there: always pending with the new wallet and note; a pending record keeps its creation
      time (taking `now` only when it has none) and its other fields; otherwise the record is
      fresh, created now and with no decision fields. */
  function Reapplied(prev: Option<Record>, wallet: string, note: Option<string>, now: int): (r: Record)
    ensures r.status == Pending && r.wallet == wallet && r.note == note && r.createdAt.Some?
    ensures prev.Some? && prev.value.status == Pending ==>
              && (prev.value.createdAt.Some? ==> r.createdAt == prev.value.createdAt)
              && (prev.value.createdAt.None? ==> r.createdAt == Some(now))
              && r.decidedBy == prev.value.decidedBy && r.decidedAt == prev.value.decidedAt
              && r.reason == prev.value.reason
    ensures !(prev.Some? && prev.value.status == Pending) ==>
              r.createdAt == Some(now) && r.decidedBy.None? && r.decidedAt.None? && r.reason.None?
  {
    if prev.Some? && prev.value.status == Pending then
      var rec := prev.value;
      rec.(wallet := wallet, note := note, createdAt := if rec.createdAt.Some? then rec.createdAt else Some(now))
    else
      Record(wallet, note, Pending, Some(now), None, None, None)
  }

  class GuardianBoard {
    /** The `guardians` map: its keys in insertion order, and its entries. */
    var order: seq<string>
    var records: map<string, Record>

    ghost predicate Valid()
      reads this
    {
      MapShape(order, records) && forall id :: id in records ==> records[id].createdAt.Some?
    }

    constructor()
      ensures Valid() && order == [] && records == map[]
    {
      order, records := [], map[];
    }

    /** `POST /api/guardians/apply`: 400 without an id or a wallet; otherwise write the
        re-applied record under the id. */
    method Apply(discordId: Option<string>, wallet: Option<string>, note: Option<string>, now: int)
      returns (code: int)
      requires Valid()
      modifies this
      ensures Valid()
      ensures !(Truthy(discordId) && Truthy(wallet)) ==>
                code == 400 && order == old(order) && records == old(records)
      ensures Truthy(discordId) && Truthy(wallet) ==>
                var id := discordId.value;
                var prev := if id in old(records) then Some(old(records)[id]) else None;
                && code == 200
                && records == old(records)[id := Reapplied(prev, wallet.value, note, now)]
                && order == SetOrder(old(order), old(records), id)
    {
      if !Truthy(discordId) || !Truthy(wallet) {
        return 400;
      }
      var id := discordId.value;
      var prev := if id in records then Some(records[id]) else None;
      SetKeepsShape(order, records, id, Reapplied(prev, wallet.value, note, now));
      order := SetOrder(order, records, id);
      records := records[id := Reapplied(prev, wallet.value, note, now)];
      code := 200;
    }

    /** `toDTO(statusFilter)`: the wanted records, tagged with their ids, newest first. */
    method ToDTO(filter: string) returns (rows: seq<Row>)
      requires Valid()
      ensures rows == NewestFirst(Selected(order, records, filter))
      ensures NewestFirstOrder(rows)
      ensures forall row :: row in rows <==>
                row.discordId in records && row.rec == records[row.discordId] && Wanted(row.rec, filter)
    {
      rows := List(order, records, filter);
    }
  }
}

/** The HTTP API of http.js: the admin-key gate, the webhook signature check, the role
    handlers' input validation, and the guardian store with its apply, list, approve and
    reject transitions. A decision is taken only on a pending application, so, with requests
    handled one at a time, approved and rejected are final until the applicant applies again,
    which always starts over. */
module Http {
  import opened JsSemantics
  import opened Guardians

  /** The admin gate: the `x-api-key` header must be present, non-empty and equal to the
      configured `ADMIN_API_KEY` (which may be unset). */
  function RequireAdmin(configured: Option<string>, header: Option<string>): (admitted: bool)
    ensures admitted ==> Truthy(configured)
    ensures admitted <==> Truthy(header) && header == configured
  {
    !(!Truthy(header) || header != configured)
  }

  /** `crypto.timingSafeEqual`: throws (here None) when the buffers differ in length,
      otherwise tells whether they are equal. */
  function TimingSafeEqual(a: seq<byte>, b: seq<byte>): (r: Option<bool>)
    ensures r.None? <==> |a| != |b|
    ensures r.Some? ==> (r.value <==> a == b)
  {
    if |a| != |b| then None else Some(a == b)
  }

  /** The signature header as read: the header, or the empty string when it is absent. */
  function Signature(header: Option<string>): string {
    if Truthy(header) then header.value else ""
  }

  /** `verifyHmac`: with no `WEBHOOK_SECRET` every request passes; otherwise the signature
      header must equal the hex MAC of the serialized body under the secret. `mac` stands for
      HMAC-SHA256 in hex; a thrown comparison counts as a failure. */
  function VerifyHmac(secret: Option<string>, header: Option<string>, body: string,
                      mac: (string, string) -> string): (ok: bool)
    ensures !Truthy(secret) ==> ok
    ensures Truthy(secret) ==> (ok <==> Signature(header) == mac(secret.value, body))
    ensures Truthy(secret) && |Utf8(Signature(header))| != |Utf8(mac(secret.value, body))| ==> !ok
  {
    if !Truthy(secret) then true
    else
      var expected := mac(secret.value, body);
      var sig := Signature(header);
      match TimingSafeEqual(Utf8(expected), Utf8(sig))
      case None => false
      case Some(same) =>
        if same then Utf8Injective(expected, sig); true else false
  }

  /** `POST /api/roles/create`: 400 without a name; otherwise what the platform does, 200 or
      500. */
  function CreateRoleCode(name: Option<string>, created: bool): (code: int)
    ensures code == 400 <==> !Truthy(name)
    ensures code == 200 <==> Truthy(name) && created
  {
    if !Truthy(name) then 400 else if created then 200 else 500
  }

  datatype RoleReply = RoleReply(code: int, role: Option<nat>)

  /** `POST /api/roles/assign` and `/api/roles/remove`: 400 without a user id or a role name;
      500 when the guild or member cannot be fetched; 404 when no role of the cached list
      `roles` has exactly that name; otherwise the first such role is added to (or removed
      from) the member, 200, or 500 when the platform refuses. */
  function MemberRoleReply(userId: Option<string>, roleName: Option<string>, roles: seq<string>,
                           fetched: bool, applied: bool): (r: RoleReply)
    ensures r.code == 400 <==> !(Truthy(userId) && Truthy(roleName))
    ensures r.code == 404 <==> Truthy(userId) && Truthy(roleName) && fetched && roleName.value !in roles
    ensures r.role.Some? <==> r.code == 200
    ensures r.code == 200 <==> Truthy(userId) && Truthy(roleName) && fetched && roleName.value in roles && applied
    ensures r.role.Some? ==> && r.role.value < |roles| && roles[r.role.value] == roleName.value
                             && forall j :: 0 <= j < r.role.value ==> roles[j] != roleName.value
  {
    if !Truthy(userId) || !Truthy(roleName) then RoleReply(400, None)
    else if !fetched then RoleReply(500, None)
    else
      match FirstNamed(roles, roleName.value)
      case None => RoleReply(404, None)
      case Some(i) => if applied then RoleReply(200, Some(i)) else RoleReply(500, None)
  }

  /** `roles.cache.find(r => r.name === name)`: the first role with exactly that name. */
  function FirstNamed(roles: seq<string>, name: string): (r: Option<nat>)
    ensures r.None? <==> name !in roles
    ensures r.Some? ==> r.value < |roles| && roles[r.value] == name
                        && forall j :: 0 <= j < r.value ==> roles[j] != name
    decreases |roles|
  {
    if roles == [] then None
    else if roles[0] == name then Some(0)
    else
      var r := FirstNamed(roles[1..], name);
      assert forall j :: 1 <= j < |roles| ==> roles[j] == roles[1..][j - 1];
      if r.None? then None else Some(r.value + 1)
  }

  /** What granting the Guardian role on approval came to: added, no role of that name, or a
      platform failure (the guild, the member or the grant). */
  datatype Grant = Added | NoGuardianRole | GrantFailed

  /** The status filter of a listing: absent is the empty string (every record). */
  predicate ValidFilter(status: string) {
    status == "" || status == "pending" || status == "approved" || status == "rejected"
  }

  class GuardianRegistry {
    /** `CORE_TEAM_ROLE_NAME`, recorded as the decider. */
    const coreTeam: string
    /** The `guardians` map: its keys in insertion order, and its entries. */
    var order: seq<string>
    var records: map<string, Record>

    /** Every record was created with a time and a note; a decided record names its decider
        and time; a rejected one carries a reason. */
    ghost predicate Valid()
      reads this
    {
      && MapShape(order, records)
      && forall id :: id in records ==>
           && records[id].createdAt.Some? && records[id].note.Some?
           && (records[id].status != Pending ==> records[id].decidedBy == Some(coreTeam) && records[id].decidedAt.Some?)
           && (records[id].status == Rejected ==> records[id].reason.Some?)
    }

    /** The decider is `CORE_TEAM_ROLE_NAME`, or "Core Team" when it is unset or empty. */
    constructor(coreTeamEnv: Option<string>)
      ensures Valid() && order == [] && records == map[]
      ensures coreTeam == if Truthy(coreTeamEnv) then coreTeamEnv.value else "Core Team"
    {
      coreTeam := if Truthy(coreTeamEnv) then coreTeamEnv.value else "Core Team";
      order, records := [], map[];
    }

    /** `POST /api/guardians/apply`: 400 without an id or a wallet; otherwise a fresh pending
        record created now replaces whatever the id had, decided or not. */
    method Apply(discordId: Option<string>, wallet: Option<string>, note: Option<string>, now: int)
      returns (code: int)
      requires Valid()
      modifies this
      ensures Valid()
      ensures !(Truthy(discordId) && Truthy(wallet)) ==>
                code == 400 && order == old(order) && records == old(records)
      ensures Truthy(discordId) && Truthy(wallet) ==>
                && code == 200
                && records == old(records)[discordId.value :=
                     Record(wallet.value, Some(if Truthy(note) then note.value else ""), Pending, Some(now),
                            None, None, None)]
                && order == SetOrder(old(order), old(records), discordId.value)
    {
      if !Truthy(discordId) || !Truthy(wallet) {
        return 400;
      }
      var id := discordId.value;
      var rec := Record(wallet.value, Some(if Truthy(note) then note.value else ""), Pending, Some(now), None, None, None);
      SetKeepsShape(order, records, id, rec);
      order := SetOrder(order, records, id);
      records := records[id := rec];
      code := 200;
    }

    /** `GET /api/guardians/list`: 400 for a status other than the three, otherwise the wanted
        records, tagged with their ids, newest first. */
    method List(status: Option<string>) returns (code: int, rows: seq<Row>)
      requires Valid()
      ensures var s := if Truthy(status) then status.value else "";
              && (!ValidFilter(s) ==> code == 400 && rows == [])
              && (ValidFilter(s) ==> && code == 200 && rows == NewestFirst(Selected(order, records, s))
                                     && NewestFirstOrder(rows)
                                     && forall row :: row in rows <==>
                                          row.discordId in records && row.rec == records[row.discordId]
                                          && Wanted(row.rec, s))
    {
      var s := if Truthy(status) then status.value else "";
      if !ValidFilter(s) {
        return 400, [];
      }
      rows := Guardians.List(order, records, s);
      code := 200;
    }

    /** `POST /api/guardians/approve`: 400 without an id; 404, unchanged, unless the
        application is pending; then the record is marked approved by the core team at `now`
        only once the Guardian role was added, and stays pending (500) otherwise. */
    method Approve(discordId: Option<string>, grant: Grant, now: int) returns (code: int)
      requires Valid()
      modifies this
      ensures Valid() && order == old(order)
      ensures !Truthy(discordId) ==> code == 400 && records == old(records)
      ensures Truthy(discordId) && !Awaiting(old(records), discordId.value) ==> code == 404 && records == old(records)
      ensures Truthy(discordId) && Awaiting(old(records), discordId.value) ==>
                var id := discordId.value;
                if grant == Added
                then code == 200 && records == old(records)[id := old(records)[id].(
                       status := Approved, decidedBy := Some(coreTeam), decidedAt := Some(now))]
                else code == 500 && records == old(records)
    {
      if !Truthy(discordId) {
        return 400;
      }
      var id := discordId.value;
      if !Awaiting(records, id) {
        return 404;
      }
      if grant != Added {
        return 500;
      }
      var rec := records[id];
      SetKeepsShape(order, records, id, rec.(status := Approved, decidedBy := Some(coreTeam), decidedAt := Some(now)));
      records := records[id := rec.(status := Approved, decidedBy := Some(coreTeam), decidedAt := Some(now))];
      code := 200;
    }

    /** `POST /api/guardians/reject`: 400 without an id; 404, unchanged, unless the
        application is pending; then the record is marked rejected by the core team at `now`
        with the given reason, or the empty string. */
    method Reject(discordId: Option<string>, reason: Option<string>, now: int) returns (code: int)
      requires Valid()
      modifies this
      ensures Valid() && order == old(order)
      ensures !Truthy(discordId) ==> code == 400 && records == old(records)
      ensures Truthy(discordId) && !Awaiting(old(records), discordId.value) ==> code == 404 && records == old(records)
      ensures Truthy(discordId) && Awaiting(old(records), discordId.value) ==>
                var id := discordId.value;
                && code == 200
                && records == old(records)[id := old(records)[id].(
                     status := Rejected, decidedBy := Some(coreTeam), decidedAt := Some(now),
                     reason := Some(if Truthy(reason) then reason.value else ""))]
    {
      if !Truthy(discordId) {
        return 400;
      }
      var id := discordId.value;
      if !Awaiting(records, id) {
        return 404;
      }
      var rec := records[id].(status := Rejected, decidedBy := Some(coreTeam), decidedAt := Some(now),
                              reason := Some(if Truthy(reason) then reason.value else ""));
      SetKeepsShape(order, records, id, rec);
      records := records[id := rec];
      code := 200;
    }
  }

  /** The application under `id` exists and is still pending. */
  predicate Awaiting(records: map<string, Record>, id: string) {
    id in records && records[id].status == Pending
  }
}

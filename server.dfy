/** The request logic of server.js: the session table with login, logout and
    the `auth` / `adminOnly` gates, and the decisions of the sales handlers.
    Requests are method inputs and responses are `Reply` values; the random
    session id, the random sale id and the clock are parameters. */
module Server {
  import opened Wrappers
  import opened JsValues
  import opened Commission
  import opened Store

  /** What a session resolves to (`req.user`). */
  datatype Identity = Identity(userId: string, role: Role, name: string, username: string)

  datatype Failure = ValidationError | Unauthenticated | InvalidCredentials | Forbidden | NotFound {
    /** The HTTP status the handler answers with. */
    function Code(): int {
      match this
      case ValidationError => 400
      case Unauthenticated => 401
      case InvalidCredentials => 401
      case Forbidden => 403
      case NotFound => 404
    }
  }

  /** A handler's answer: a JSON body, or an error status. */
  datatype Reply<+T> = Ok(body: T) | Fail(failure: Failure)

  datatype LoginInfo = LoginInfo(role: Role, name: string, username: string)

  function IdentityOf(u: User): Identity {
    Identity(u.id, u.role, u.displayName, u.username)
  }

  /** `toLowerCase` on the ASCII letters. */
  function LowerAscii(s: string): (r: string)
    ensures |r| == |s|
    ensures forall i | 0 <= i < |s| :: r[i] == if 'A' <= s[i] <= 'Z' then (s[i] as int + 32) as char else s[i]
  {
    if s == [] then []
    else [if 'A' <= s[0] <= 'Z' then (s[0] as int + 32) as char else s[0]] + LowerAscii(s[1..])
  }

  /** `String(v || "")`, how the login handler reads its two fields. */
  function Field(v: Value): string {
    ToText(OrElse(v, Str("")))
  }

  /** `String(x || fallback)`, how the handlers read `consultorName` and
      `userId` from an admin's body. */
  function FieldOr(v: Value, fallback: string): (r: string)
    ensures Truthy(v) ==> r == ToText(v)
    ensures !Truthy(v) ==> r == fallback
  {
    if Truthy(v) then ToText(v) else fallback
  }

  /** A body is rejected with 400 when a required text is empty after trimming. */
  predicate MissingText(input: SaleInput) {
    input.cliente == "" || input.produto == "" || input.data == ""
  }

  /** Text that holds nothing but white space. */
  predicate Blank(s: string) {
    forall i | 0 <= i < |s| :: IsWhiteSpace(s[i])
  }

  /** A body is turned away for a missing text exactly when one of the three
      fields, read as `String(x || "")`, is nothing but white space (an
      absent or empty field reads as `""`). */
  lemma MissingTextOfBody(body: Body)
    ensures MissingText(NormalizeSaleInput(body)) <==>
      || Blank(ToText(OrElse(body.cliente, Str(""))))
      || Blank(ToText(OrElse(body.produto, Str(""))))
      || Blank(ToText(OrElse(body.data, Str(""))))
  {
    TrimShape(ToText(OrElse(body.cliente, Str(""))));
    TrimShape(ToText(OrElse(body.produto, Str(""))));
    TrimShape(ToText(OrElse(body.data, Str(""))));
  }

  /** The owner of a new sale: the caller, unless an admin names another one. */
  function NewSale(me: Identity, body: Body, input: SaleInput, id: string, ts: string): (s: Sale)
    ensures s.id == id && s.input == input && s.createdAt == ts && s.updatedAt == ts
    ensures me.role != Admin ==> s.userId == me.userId && s.consultorName == me.name
    ensures me.role == Admin ==> s.userId == FieldOr(body.userId, me.userId)
    ensures me.role == Admin ==> s.consultorName == FieldOr(body.consultorName, me.name)
  {
    var consultorName := if me.role == Admin then FieldOr(body.consultorName, me.name) else me.name;
    var userId := if me.role == Admin then FieldOr(body.userId, me.userId) else me.userId;
    Sale(id, userId, consultorName, input, ts, ts)
  }

  /** The transform the PUT handler hands to `updateSale`: a non-admin's edit
      of someone else's sale returns it untouched; otherwise the input fields
      are replaced, a non-admin stays the owner, and an admin may reassign
      it. */
  function Edited(me: Identity, body: Body, input: SaleInput, ts: string, current: Sale): (r: Sale)
    ensures r.id == current.id && r.createdAt == current.createdAt
    ensures me.role != Admin && current.userId != me.userId ==> r == current
    ensures me.role != Admin && current.userId == me.userId ==>
      r == Sale(current.id, me.userId, me.name, input, current.createdAt, ts)
    ensures me.role == Admin ==>
      r == Sale(current.id, FieldOr(body.userId, current.userId),
                FieldOr(body.consultorName, current.consultorName), input, current.createdAt, ts)
    ensures me.role != Admin ==> (r.userId == me.userId <==> current.userId == me.userId)
  {
    if me.role != Admin && current.userId != me.userId then current
    else
      var consultorName := if me.role == Admin then FieldOr(body.consultorName, current.consultorName) else me.name;
      var userId := if me.role == Admin then FieldOr(body.userId, current.userId) else me.userId;
      Sale(current.id, userId, consultorName, input, current.createdAt, ts)
  }

  /** A non-admin's own delete removes only that caller's sale: with distinct
      ids, the one sale carrying the id is the caller's, so every sale of
      another owner survives. */
  lemma OwnDeleteSparesOthers(sales: seq<Sale>, id: string, userId: string)
    requires UniqueIds(sales)
    requires HasId(OwnedBy(sales, userId), id)
    ensures forall s | s in sales && s.userId != userId :: s in WithoutId(sales, id)
  {
  }

  /** Without distinct ids the ownership test of DELETE would not be enough:
      a caller owning one of two sales that share an id removes both. */
  lemma DuplicateIdsDefeatOwnership(input: SaleInput)
    ensures var mine := Sale("x", "u_pedro", "Pedro", input, "", "");
            var theirs := Sale("x", "u_poli", "Poli", input, "", "");
            HasId(OwnedBy([mine, theirs], "u_pedro"), "x") && theirs !in WithoutId([mine, theirs], "x")
  {
    var mine := Sale("x", "u_pedro", "Pedro", input, "", "");
    assert mine in OwnedBy([mine, Sale("x", "u_poli", "Poli", input, "", "")], "u_pedro");
  }

  /** The server: its session table and the document it stores sales in. */
  class App {
    var sessions: map<string, Identity>
    const db: Db

    /** Session ids are never empty, and stored sales have distinct ids. */
    ghost predicate Valid()
      reads this, db
    {
      "" !in sessions && UniqueIds(db.sales)
    }

    constructor (db: Db)
      requires UniqueIds(db.sales)
      ensures Valid() && sessions == map[] && this.db == db
    {
      sessions := map[];
      this.db := db;
    }

    /** `auth`: 401 unless the cookie names a live session. */
    function Auth(sid: Option<string>): (r: Reply<Identity>)
      reads this
      ensures r.Ok? <==> sid.Some? && sid.value != "" && sid.value in sessions
      ensures r.Ok? ==> r.body == sessions[sid.value]
      ensures r.Fail? ==> r.failure == Unauthenticated
    {
      if sid.None? || sid.value == "" || sid.value !in sessions then Fail(Unauthenticated)
      else Ok(sessions[sid.value])
    }

    /** `adminOnly`: 403 for anyone but an admin. */
    static function AdminOnly(me: Identity): (r: Option<Failure>)
      ensures r.None? <==> me.role == Admin
      ensures r.Some? ==> r.value == Forbidden && r.value.Code() == 403
    {
      if me.role != Admin then Some(Forbidden) else None
    }

    /** `POST /api/login`: the lower-cased user name and the password must
        match a stored user; a new session is then opened under `sid`. */
    method Login(username: Value, password: Value, sid: string) returns (r: Reply<LoginInfo>)
      requires Valid() && sid != ""
      modifies this
      ensures Valid()
      ensures var u := FindUser(db.users, LowerAscii(Field(username)));
        && (r.Ok? <==> u.Some? && u.value.password == Field(password))
        && (r.Ok? ==> sessions == old(sessions)[sid := IdentityOf(u.value)]
                      && r.body == LoginInfo(u.value.role, u.value.displayName, u.value.username))
        && (r.Fail? ==> r.failure == InvalidCredentials && sessions == old(sessions))
    {
      var user := db.FindUserByUsername(LowerAscii(Field(username)));
      if user.None? || user.value.password != Field(password) {
        return Fail(InvalidCredentials);
      }
      sessions := sessions[sid := IdentityOf(user.value)];
      return Ok(LoginInfo(user.value.role, user.value.displayName, user.value.username));
    }

    /** `POST /api/logout`: behind `auth`, forgets the session. */
    method Logout(sid: Option<string>) returns (r: Reply<()>)
      requires Valid()
      modifies this
      ensures Valid()
      ensures r.Ok? <==> old(Auth(sid)).Ok?
      ensures r.Fail? ==> r.failure == Unauthenticated && sessions == old(sessions)
      ensures r.Ok? ==> sessions == old(sessions) - {sid.value} && sid.value !in sessions
    {
      var me := Auth(sid);
      if me.Fail? {
        return Fail(me.failure);
      }
      sessions := sessions - {sid.value};
      return Ok(());
    }

    /** `GET /api/users`: behind `auth` and `adminOnly`. */
    method Users(sid: Option<string>) returns (r: Reply<seq<PublicUser>>)
      ensures Auth(sid).Fail? ==> r == Fail(Unauthenticated)
      ensures Auth(sid).Ok? && Auth(sid).body.role != Admin ==> r == Fail(Forbidden)
      ensures Auth(sid).Ok? && Auth(sid).body.role == Admin ==> r == Ok(RedactAll(db.users))
    {
      var me := Auth(sid);
      if me.Fail? {
        return Fail(me.failure);
      }
      var gate := AdminOnly(me.body);
      if gate.Some? {
        return Fail(gate.value);
      }
      var users := db.ListUsers();
      return Ok(users);
    }

    /** `GET /api/sales`: behind `auth`, the caller's visible sales. */
    method ListSales(sid: Option<string>) returns (r: Reply<seq<Sale>>)
      ensures Auth(sid).Fail? ==> r == Fail(Unauthenticated)
      ensures Auth(sid).Ok? ==> r == Ok(Visible(db.sales, Auth(sid).body.role, Auth(sid).body.userId))
    {
      var me := Auth(sid);
      if me.Fail? {
        return Fail(me.failure);
      }
      var rows := db.ListSalesForUser(me.body.role, me.body.userId);
      return Ok(rows);
    }

    /** `POST /api/sales`: behind `auth`; 400 when a required text is empty or
        when quotas or unit value are not positive; otherwise the sale is
        stored in front under the fresh id `newId`. */
    method PostSale(sid: Option<string>, body: Body, newId: string, ts: string) returns (r: Reply<string>)
      requires Valid()
      requires !HasId(db.sales, newId)
      modifies db
      ensures Valid()
      ensures db.users == old(db.users)
      ensures old(Auth(sid)).Fail? ==> r == Fail(Unauthenticated) && db.sales == old(db.sales)
      ensures old(Auth(sid)).Ok? ==>
        var me := old(Auth(sid)).body;
        var input := NormalizeSaleInput(body);
        && (r.Ok? <==> !MissingText(input) && input.cotas > 0 && input.valorUnit > 0.0)
        && (r.Fail? ==> r.failure == ValidationError && db.sales == old(db.sales))
        && (r.Ok? ==> r.body == newId && db.sales == [NewSale(me, body, input, newId, ts)] + old(db.sales))
        && (r.Ok? && me.role != Admin ==> db.sales[0].userId == me.userId && db.sales[0].consultorName == me.name)
    {
      var me := Auth(sid);
      if me.Fail? {
        return Fail(me.failure);
      }
      r := CreateAs(me.body, body, NormalizeSaleInput(body), newId, ts);
    }

    /** The POST handler once the caller is known and the body normalized. */
    method CreateAs(me: Identity, body: Body, input: SaleInput, newId: string, ts: string) returns (r: Reply<string>)
      requires Valid()
      requires !HasId(db.sales, newId)
      modifies db
      ensures Valid()
      ensures db.users == old(db.users)
      ensures r.Ok? <==> !MissingText(input) && input.cotas > 0 && input.valorUnit > 0.0
      ensures r.Fail? ==> r.failure == ValidationError && db.sales == old(db.sales)
      ensures r.Ok? ==> r.body == newId && db.sales == [NewSale(me, body, input, newId, ts)] + old(db.sales)
    {
      if MissingText(input) {
        return Fail(ValidationError);
      }
      if input.cotas <= 0 || input.valorUnit <= 0.0 {
        return Fail(ValidationError);
      }
      var sale := NewSale(me, body, input, newId, ts);
      db.CreateSale(sale);
      PrependFreshUnique(old(db.sales), sale);
      return Ok(newId);
    }

    /** `PUT /api/sales/:id`, in the order the handler runs: `auth`, the
        required texts (400), `updateSale` with the `Edited` transform (404
        when the id is unknown), then 403 when a non-admin's sale belongs to
        someone else; in that case the transform left the record as it was. */
    method PutSale(sid: Option<string>, id: string, body: Body, ts: string) returns (r: Reply<()>)
      requires Valid()
      modifies db
      ensures Valid()
      ensures db.users == old(db.users)
      ensures old(Auth(sid)).Fail? ==> r == Fail(Unauthenticated) && db.sales == old(db.sales)
      ensures old(Auth(sid)).Ok? ==>
        var me := old(Auth(sid)).body;
        var input := NormalizeSaleInput(body);
        var k := IndexOfId(old(db.sales), id);
        && (MissingText(input) ==> r == Fail(ValidationError) && db.sales == old(db.sales))
        && (!MissingText(input) && k == |old(db.sales)| ==> r == Fail(NotFound) && db.sales == old(db.sales))
        && (!MissingText(input) && k < |old(db.sales)| && me.role != Admin && old(db.sales)[k].userId != me.userId ==>
              r == Fail(Forbidden) && db.sales == old(db.sales))
        && (!MissingText(input) && k < |old(db.sales)| && (me.role == Admin || old(db.sales)[k].userId == me.userId) ==>
              r == Ok(()) && db.sales == old(db.sales)[k := Edited(me, body, input, ts, old(db.sales)[k])])
      ensures old(Auth(sid)).Ok? && old(Auth(sid)).body.role != Admin ==>
        |db.sales| == |old(db.sales)| &&
        forall i | 0 <= i < |old(db.sales)| && old(db.sales)[i].userId != old(Auth(sid)).body.userId ::
          db.sales[i] == old(db.sales)[i]
    {
      var me := Auth(sid);
      if me.Fail? {
        return Fail(me.failure);
      }
      r := EditAs(me.body, id, body, NormalizeSaleInput(body), ts);
    }

    /** The PUT handler once the caller is known and the body normalized. */
    method EditAs(me: Identity, id: string, body: Body, input: SaleInput, ts: string) returns (r: Reply<()>)
      requires Valid()
      modifies db
      ensures Valid()
      ensures db.users == old(db.users)
      ensures var k := IndexOfId(old(db.sales), id);
        && (MissingText(input) ==> r == Fail(ValidationError) && db.sales == old(db.sales))
        && (!MissingText(input) && k == |old(db.sales)| ==> r == Fail(NotFound) && db.sales == old(db.sales))
        && (!MissingText(input) && k < |old(db.sales)| && me.role != Admin && old(db.sales)[k].userId != me.userId ==>
              r == Fail(Forbidden) && db.sales == old(db.sales))
        && (!MissingText(input) && k < |old(db.sales)| && (me.role == Admin || old(db.sales)[k].userId == me.userId) ==>
              r == Ok(()) && db.sales == old(db.sales)[k := Edited(me, body, input, ts, old(db.sales)[k])])
      ensures me.role != Admin ==>
        |db.sales| == |old(db.sales)| &&
        forall i | 0 <= i < |old(db.sales)| && old(db.sales)[i].userId != me.userId :: db.sales[i] == old(db.sales)[i]
    {
      if MissingText(input) {
        return Fail(ValidationError);
      }
      ghost var before := db.sales;
      var result := db.UpdateSale(id, (current: Sale) => Edited(me, body, input, ts, current));
      if result.None? {
        return Fail(NotFound);
      }
      EditKeepsIdsUnique(before, IndexOfId(before, id), result.value);
      if me.role != Admin && result.value.userId != me.userId {
        return Fail(Forbidden);
      }
      return Ok(());
    }

    /** `DELETE /api/sales/:id`, in the order the handler runs: `auth`, a
        no-op `updateSale` that only tells whether the id exists (404), the
        ownership test against the caller's own list (403), then
        `deleteSale`. */
    method DeleteSale(sid: Option<string>, id: string) returns (r: Reply<()>)
      requires Valid()
      modifies db
      ensures Valid()
      ensures db.users == old(db.users)
      ensures old(Auth(sid)).Fail? ==> r == Fail(Unauthenticated) && db.sales == old(db.sales)
      ensures old(Auth(sid)).Ok? ==>
        var me := old(Auth(sid)).body;
        && (!HasId(old(db.sales), id) ==> r == Fail(NotFound) && db.sales == old(db.sales))
        && (HasId(old(db.sales), id) && me.role != Admin && !HasId(OwnedBy(old(db.sales), me.userId), id) ==>
              r == Fail(Forbidden) && db.sales == old(db.sales))
        && (HasId(old(db.sales), id) && (me.role == Admin || HasId(OwnedBy(old(db.sales), me.userId), id)) ==>
              r == Ok(()) && db.sales == WithoutId(old(db.sales), id))
      ensures old(Auth(sid)).Ok? && old(Auth(sid)).body.role != Admin ==>
        forall s | s in old(db.sales) && s.userId != old(Auth(sid)).body.userId :: s in db.sales
    {
      var me := Auth(sid);
      if me.Fail? {
        return Fail(me.failure);
      }
      ghost var before := db.sales;
      var found := db.UpdateSale(id, (current: Sale) => current);
      assert db.sales == before;
      if found.None? {
        return Fail(NotFound);
      }
      var mine := db.ListSalesForUser(me.body.role, me.body.userId);
      var isMine := HasId(mine, id);
      if me.body.role != Admin && !isMine {
        return Fail(Forbidden);
      }
      var ok := db.DeleteSale(id);
      WithoutIdUnique(before, id);
      if me.body.role != Admin {
        OwnDeleteSparesOthers(before, id, me.body.userId);
      }
      if !ok {
        return Fail(NotFound);
      }
      return Ok(());
    }
  }

  /** Replacing a sale by one with the same id keeps ids distinct. */
  lemma EditKeepsIdsUnique(sales: seq<Sale>, k: nat, next: Sale)
    requires UniqueIds(sales) && k < |sales| && next.id == sales[k].id
    ensures UniqueIds(sales[k := next])
  {
  }
}

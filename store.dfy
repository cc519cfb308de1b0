/** The storage adapter of db.js. The JSON file is abstracted to the
    in-memory document `{users, sales}` held by a `Db` object; each export
    reads it and, for the mutating ones, changes it in place. */
module Store {
  import opened Wrappers
  import opened Commission

  datatype Role = Admin | Consultor

  datatype User = User(id: string, username: string, displayName: string, role: Role, password: string)

  /** A user as `listUsers` returns it: without the password. */
  datatype PublicUser = PublicUser(id: string, username: string, displayName: string, role: Role)

  /** A stored sale: its identity, its owner and the owner's display name at
      the time, the normalised input fields and two timestamps. */
  datatype Sale = Sale(
    id: string, userId: string, consultorName: string,
    input: SaleInput, createdAt: string, updatedAt: string)

  const DefaultAdminPassword: string := "victor é lindo"

  /** The fixed roster `seedUsersIfNeeded` installs; an absent or empty admin
      password falls back to the default one. */
  function Roster(adminPassword: Option<string>): (r: seq<User>)
    ensures |r| == 6
    ensures r[0].role == Admin && r[0].username == "admin"
    ensures r[0].password == if adminPassword.Some? && adminPassword.value != "" then adminPassword.value else DefaultAdminPassword
    ensures forall i | 1 <= i < 6 :: r[i].role == Consultor && r[i].password == "1234"
  {
    var password := if adminPassword.Some? && adminPassword.value != "" then adminPassword.value else DefaultAdminPassword;
    [ User("u_admin", "admin", "Administrador", Admin, password),
      User("u_graziele", "graziele", "Graziele", Consultor, "1234"),
      User("u_pedro", "pedro", "Pedro", Consultor, "1234"),
      User("u_gustavo", "gustavo", "Gustavo", Consultor, "1234"),
      User("u_poli", "poli", "Poli", Consultor, "1234"),
      User("u_victor", "victor", "Victor", Consultor, "1234") ]
  }

  /** `users.find(u => u.username === username) || null`. */
  function FindUser(users: seq<User>, username: string): (r: Option<User>)
    ensures r.Some? ==> r.value in users && r.value.username == username
    ensures r.None? <==> forall u | u in users :: u.username != username
    ensures r.Some? ==> exists k | 0 <= k < |users| :: users[k] == r.value && forall i | 0 <= i < k :: users[i].username != username
  {
    if users == [] then None
    else if users[0].username == username then Some(users[0])
    else
      var r := FindUser(users[1..], username);
      assert r.Some? ==> exists k | 0 <= k < |users| :: users[k] == r.value && forall i | 0 <= i < k :: users[i].username != username by {
        if r.Some? {
          var k :| 0 <= k < |users[1..]| && users[1..][k] == r.value && forall i | 0 <= i < k :: users[1..][i].username != username;
          assert users[k + 1] == r.value;
        }
      }
      r
  }

  function Redacted(u: User): PublicUser {
    PublicUser(u.id, u.username, u.displayName, u.role)
  }

  /** `users.map(({ password, ...rest }) => rest)`. */
  function RedactAll(users: seq<User>): (r: seq<PublicUser>)
    ensures |r| == |users|
    ensures forall i | 0 <= i < |users| :: r[i] == Redacted(users[i])
  {
    seq(|users|, i requires 0 <= i < |users| => Redacted(users[i]))
  }

  /** The sales owned by `userId`, in their stored order
      (`sales.filter(s => s.userId === userId)`). */
  function OwnedBy(sales: seq<Sale>, userId: string): (r: seq<Sale>)
    ensures |r| <= |sales|
    ensures forall s :: s in r <==> s in sales && s.userId == userId
  {
    if sales == [] then []
    else (if sales[0].userId == userId then [sales[0]] else []) + OwnedBy(sales[1..], userId)
  }

  /** Filtering commutes with concatenation, so the owned sales keep their
      relative order. */
  lemma {:induction false} OwnedByAppend(a: seq<Sale>, b: seq<Sale>, userId: string)
    ensures OwnedBy(a + b, userId) == OwnedBy(a, userId) + OwnedBy(b, userId)
  {
    if a == [] {
      assert a + b == b;
    } else {
      assert (a + b)[1..] == a[1..] + b;
      OwnedByAppend(a[1..], b, userId);
    }
  }

  /** `listSalesForUser`: everything for an admin, the owned rows otherwise. */
  function Visible(sales: seq<Sale>, role: Role, userId: string): (r: seq<Sale>)
    ensures role == Admin ==> r == sales
    ensures role != Admin ==> forall s :: s in r <==> s in sales && s.userId == userId
  {
    if role == Admin then sales else OwnedBy(sales, userId)
  }

  /** `sales.findIndex(s => s.id === id)`, with `|sales|` for "not found". */
  function IndexOfId(sales: seq<Sale>, id: string): (k: nat)
    ensures k <= |sales|
    ensures k < |sales| ==> sales[k].id == id
    ensures forall i | 0 <= i < k :: sales[i].id != id
  {
    if sales == [] then 0
    else if sales[0].id == id then 0
    else 1 + IndexOfId(sales[1..], id)
  }

  predicate HasId(sales: seq<Sale>, id: string) {
    exists s | s in sales :: s.id == id
  }

  /** `sales.filter(s => s.id !== id)`. */
  function WithoutId(sales: seq<Sale>, id: string): (r: seq<Sale>)
    ensures |r| <= |sales|
    ensures forall s :: s in r <==> s in sales && s.id != id
    ensures |r| == |sales| <==> !HasId(sales, id)
  {
    if sales == [] then []
    else
      var rest := WithoutId(sales[1..], id);
      assert HasId(sales, id) <==> sales[0].id == id || HasId(sales[1..], id) by {
        if HasId(sales, id) && sales[0].id != id {
          var s :| s in sales && s.id == id;
          assert s in sales[1..];
        }
      }
      (if sales[0].id == id then [] else [sales[0]]) + rest
  }

  /** Deleting commutes with concatenation, so the surviving sales keep their
      relative order. */
  lemma {:induction false} WithoutIdAppend(a: seq<Sale>, b: seq<Sale>, id: string)
    ensures WithoutId(a + b, id) == WithoutId(a, id) + WithoutId(b, id)
  {
    if a == [] {
      assert a + b == b;
    } else {
      var head := if a[0].id == id then [] else [a[0]];
      assert (a + b)[0] == a[0] && (a + b)[1..] == a[1..] + b;
      assert WithoutId(a + b, id) == head + WithoutId(a[1..] + b, id);
      assert WithoutId(a, id) == head + WithoutId(a[1..], id);
      WithoutIdAppend(a[1..], b, id);
      ConcatAssoc(head, WithoutId(a[1..], id), WithoutId(b, id));
    }
  }

  lemma ConcatAssoc(x: seq<Sale>, y: seq<Sale>, z: seq<Sale>)
    ensures x + (y + z) == (x + y) + z
  {
  }

  /** No two stored sales share an id (ids come from `randomUUID`). */
  predicate UniqueIds(sales: seq<Sale>) {
    forall i, j | 0 <= i < j < |sales| :: sales[i].id != sales[j].id
  }

  /** A sale with a fresh id, stored in front, keeps ids distinct. */
  lemma PrependFreshUnique(sales: seq<Sale>, sale: Sale)
    requires UniqueIds(sales) && !HasId(sales, sale.id)
    ensures UniqueIds([sale] + sales)
  {
    forall j | 0 <= j < |sales| ensures sales[j].id != sale.id {
      assert sales[j] in sales;
    }
  }

  /** Removing entries keeps ids distinct. */
  lemma {:induction false} WithoutIdUnique(sales: seq<Sale>, id: string)
    requires UniqueIds(sales)
    ensures UniqueIds(WithoutId(sales, id))
  {
    if sales != [] {
      WithoutIdUnique(sales[1..], id);
      var rest := WithoutId(sales[1..], id);
      if sales[0].id != id {
        forall j | 0 <= j < |rest| ensures sales[0].id != rest[j].id {
          assert rest[j] in sales[1..];
        }
      }
    }
  }

  /** The in-memory document `{ users, sales }`. */
  class Db {
    var users: seq<User>
    var sales: seq<Sale>

    /** The document as it was read from the data file (empty when the file
        did not exist). */
    constructor (users: seq<User>, sales: seq<Sale>)
      ensures this.users == users && this.sales == sales
    {
      this.users := users;
      this.sales := sales;
    }

    /** `seedUsersIfNeeded`: installs the roster and empties the sales the
        first time, and does nothing once there are users. */
    method SeedUsersIfNeeded(adminPassword: Option<string>)
      modifies this
      ensures old(users) != [] ==> users == old(users) && sales == old(sales)
      ensures old(users) == [] ==> users == Roster(adminPassword) && sales == []
    {
      if users != [] {
        return;
      }
      users := Roster(adminPassword);
      sales := [];
    }

    /** `findUserByUsername`. */
    method FindUserByUsername(username: string) returns (r: Option<User>)
      ensures r == FindUser(users, username)
    {
      r := FindUser(users, username);
    }

    /** `listUsers`. */
    method ListUsers() returns (r: seq<PublicUser>)
      ensures r == RedactAll(users)
    {
      r := RedactAll(users);
    }

    /** `listSalesForUser`. */
    method ListSalesForUser(role: Role, userId: string) returns (rows: seq<Sale>)
      ensures rows == Visible(sales, role, userId)
    {
      rows := Visible(sales, role, userId);
    }

    /** `createSale`: the new sale goes in front (`unshift`). */
    method CreateSale(sale: Sale)
      modifies this
      ensures sales == [sale] + old(sales)
      ensures users == old(users)
    {
      sales := [sale] + sales;
    }

    /** `updateSale`: the first sale with this id is replaced by what
        `transform` makes of it; `None` when there is no such sale. */
    method UpdateSale(id: string, transform: Sale -> Sale) returns (updated: Option<Sale>)
      modifies this
      ensures users == old(users)
      ensures IndexOfId(old(sales), id) == |old(sales)| ==> updated.None? && sales == old(sales)
      ensures IndexOfId(old(sales), id) < |old(sales)| ==>
        var k := IndexOfId(old(sales), id);
        updated == Some(transform(old(sales)[k])) && sales == old(sales)[k := transform(old(sales)[k])]
    {
      var idx := IndexOfId(sales, id);
      if idx == |sales| {
        return None;
      }
      var next := transform(sales[idx]);
      sales := sales[idx := next];
      return Some(next);
    }

    /** `deleteSale`: every sale with this id goes; `ok` says whether any did. */
    method DeleteSale(id: string) returns (ok: bool)
      modifies this
      ensures sales == WithoutId(old(sales), id)
      ensures users == old(users)
      ensures ok <==> HasId(old(sales), id)
    {
      var before := |sales|;
      sales := WithoutId(sales, id);
      ok := |sales| != before;
    }
  }

  /** With distinct ids, an id that is present sits at exactly one index. */
  lemma UniqueIndex(sales: seq<Sale>, id: string, i: int)
    requires UniqueIds(sales)
    requires 0 <= i < |sales| && sales[i].id == id
    ensures IndexOfId(sales, id) == i
  {
  }
}

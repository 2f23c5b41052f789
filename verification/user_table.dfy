/** The `users` table as the services see it: a sequence of rows, read and
    updated by `id`. */
module UserTable {
  import opened Common
  import opened Types

  /** The rows whose id is `id`, in table order. */
  function WithId(users: seq<User>, id: string): (r: seq<User>)
    ensures forall u :: u in r <==> u in users && u.id == id
    ensures |r| <= |users|
  {
    if |users| == 0 then []
    else
      var rest := WithId(users[1..], id);
      assert users == [users[0]] + users[1..];
      if users[0].id == id then [users[0]] + rest else rest
  }

  /** `.select(...).eq('id', id).single()`: exactly one matching row, or an
      error (store unreachable, no row, several rows). */
  function SingleById(users: seq<User>, id: string, reachable: bool): (r: Remote<User>)
    ensures r.Found? <==> reachable && |WithId(users, id)| == 1
    ensures r.Found? ==> WithId(users, id) == [r.row] && r.row in users && r.row.id == id
    ensures !r.NotFound?
  {
    var matches := WithId(users, id);
    if reachable && |matches| == 1 then
      assert matches[0] in matches;
      Found(matches[0])
    else Failed
  }

  /** `.update({ role, ... }).eq('id', id)`: every row with that id gets the
      role, and `updated_at` when a timestamp is written; nothing else moves. */
  function SetRole(users: seq<User>, id: string, role: Role, stamp: Option<int>): (r: seq<User>)
    ensures |r| == |users|
    ensures forall i :: 0 <= i < |r| && users[i].id == id ==>
      r[i] == users[i].(role := role, updatedAt := stamp.GetOr(users[i].updatedAt))
    ensures forall i :: 0 <= i < |r| && users[i].id != id ==> r[i] == users[i]
  {
    if |users| == 0 then []
    else
      var u := users[0];
      [if u.id == id then u.(role := role, updatedAt := stamp.GetOr(u.updatedAt)) else u]
        + SetRole(users[1..], id, role, stamp)
  }

  /** Writing the same role twice is writing it once. */
  lemma SetRoleIdempotent(users: seq<User>, id: string, role: Role, stamp: Option<int>)
    ensures SetRole(SetRole(users, id, role, stamp), id, role, stamp) == SetRole(users, id, role, stamp)
  {
    var once := SetRole(users, id, role, stamp);
    var twice := SetRole(once, id, role, stamp);
    forall i | 0 <= i < |users| ensures twice[i] == once[i] {
      assert once[i].id == users[i].id;
    }
  }
}

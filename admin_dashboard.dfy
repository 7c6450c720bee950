/** The admin dashboard: artists split into pending and approved, and the
    list and bucket updates after an approval decision, a user deletion and
    an upload deletion. */
module AdminDashboard {
  import opened Common
  import opened Gallery
  import Server

  /** The fields of a user record the dashboard reads. */
  datatype Account = Account(id: Server.Id, username: string, role: string, approved: bool)

  predicate IsPending(a: Account) {
    a.role == "artist" && !a.approved
  }

  predicate IsApproved(a: Account) {
    a.role == "artist" && a.approved
  }

  /** The dashboard's lists and the uploads map it was given. */
  datatype Dashboard = Dashboard(pending: seq<Account>, approved: seq<Account>, userUploads: Buckets)

  /** Holds after a fetch: only unapproved artists wait, only approved
      artists are listed as approved, and no id is in both lists. */
  predicate Partitioned(d: Dashboard) {
    (forall i :: 0 <= i < |d.pending| ==> IsPending(d.pending[i]))
    && (forall i :: 0 <= i < |d.approved| ==> IsApproved(d.approved[i]))
    && (forall i, j :: 0 <= i < |d.pending| && 0 <= j < |d.approved| ==> d.pending[i].id != d.approved[j].id)
  }

  /** `fetchPendingArtists` on an ok response: the artists not yet approved
      and the approved artists, each in the server's order. */
  function Partition(data: seq<Account>): (r: (seq<Account>, seq<Account>))
    ensures IsSubsequence(r.0, data) && IsSubsequence(r.1, data)
    ensures forall i :: 0 <= i < |r.0| ==> r.0[i] in data && IsPending(r.0[i])
    ensures forall i :: 0 <= i < |r.1| ==> r.1[i] in data && IsApproved(r.1[i])
    ensures forall i :: 0 <= i < |data| && IsPending(data[i]) ==> data[i] in r.0
    ensures forall i :: 0 <= i < |data| && IsApproved(data[i]) ==> data[i] in r.1
    ensures forall a :: multiset(r.0)[a] == if IsPending(a) then multiset(data)[a] else 0
    ensures forall a :: multiset(r.1)[a] == if IsApproved(a) then multiset(data)[a] else 0
  {
    FilterCounts(IsPending, data);
    FilterCounts(IsApproved, data);
    (Filter(IsPending, data), Filter(IsApproved, data))
  }

  /** Every artist lands in exactly one of the lists and nobody else in
      either: ids unique in the response make the lists disjoint. */
  lemma PartitionIsExact(data: seq<Account>)
    requires forall i, j :: 0 <= i < j < |data| ==> data[i].id != data[j].id
    ensures var (pending, approved) := Partition(data);
      Partitioned(Dashboard(pending, approved, map[]))
      && (forall i :: 0 <= i < |data| && data[i].role == "artist" ==> (data[i] in pending <==> data[i] !in approved))
  {
    var (pending, approved) := Partition(data);
    forall i, j | 0 <= i < |pending| && 0 <= j < |approved|
      ensures pending[i].id != approved[j].id
    {
      var a, b := pending[i], approved[j];
      var k :| 0 <= k < |data| && data[k] == a;
      var l :| 0 <= l < |data| && data[l] == b;
      assert k != l;
    }
  }

  /** `handleApprove`. `reply` is the user the server returns, None when
      the response was not ok or the request failed. */
  function HandleApprove(d: Dashboard, artist: Account, approved: bool, reply: Option<Account>): (r: Dashboard)
    ensures reply.None? ==> r == d
    ensures reply.Some? ==> (r.userUploads == d.userUploads
      && r.pending == Filter((a: Account) => a.id != artist.id, d.pending)
      && r.approved == if approved then d.approved + [reply.value] else d.approved)
    ensures reply.Some? ==> forall i :: 0 <= i < |r.pending| ==> r.pending[i].id != artist.id && r.pending[i] in d.pending
  {
    if reply.None? then d
    else
      var pending := Filter((a: Account) => a.id != artist.id, d.pending);
      if approved then d.(pending := pending, approved := d.approved + [reply.value])
      else d.(pending := pending)
  }

  /** A decision the server confirms with the artist's own record, now
      carrying the decision, keeps the lists partitioned. */
  lemma ApproveKeepsPartition(d: Dashboard, artist: Account, approved: bool, updated: Account)
    requires Partitioned(d)
    requires updated.id == artist.id && updated.role == "artist" && updated.approved == approved
    ensures Partitioned(HandleApprove(d, artist, approved, Some(updated)))
  {
  }

  /** The request `handleDeleteUser` sends. */
  datatype DeleteRequest = NoRequest | DeleteUserRequest(id: Server.Id)

  /** `handleDeleteUser`. Nothing happens unless the admin confirms; an
      unknown username throws before any request. On an ok response every
      approved artist with that username goes, and when the dashboard was
      given `setUserUploads` that username's bucket is removed. */
  function HandleDeleteUser(d: Dashboard, username: string, confirmed: bool, hasSetter: bool, ok: bool): (r: (Dashboard, DeleteRequest))
    ensures !confirmed ==> r == (d, NoRequest)
    ensures r.1.DeleteUserRequest? <==> confirmed && exists i :: 0 <= i < |d.approved| && d.approved[i].username == username
    ensures r.1.DeleteUserRequest? ==> exists k :: (0 <= k < |d.approved|
      && d.approved[k].username == username && d.approved[k].id == r.1.id
      && forall i :: 0 <= i < k ==> d.approved[i].username != username)
    ensures !(r.1.DeleteUserRequest? && ok) ==> r.0 == d
    ensures r.1.DeleteUserRequest? && ok ==> (r.0.pending == d.pending
      && r.0.approved == Filter((a: Account) => a.username != username, d.approved)
      && r.0.userUploads == if hasSetter then d.userUploads - {username} else d.userUploads)
  {
    if !confirmed then (d, NoRequest)
    else
      var found := FindByUsername(d.approved, username);
      if found.None? then (d, NoRequest)
      else if !ok then (d, DeleteUserRequest(found.value.id))
      else
        var approved := Filter((a: Account) => a.username != username, d.approved);
        (d.(approved := approved, userUploads := if hasSetter then d.userUploads - {username} else d.userUploads),
         DeleteUserRequest(found.value.id))
  }

  /** `accounts.find(a => a.username === username)`: the first match. */
  function FindByUsername(accounts: seq<Account>, username: string): (r: Option<Account>)
    ensures r.None? <==> forall i :: 0 <= i < |accounts| ==> accounts[i].username != username
    ensures r.Some? ==> exists k :: (0 <= k < |accounts| && accounts[k] == r.value && r.value.username == username
      && forall i :: 0 <= i < k ==> accounts[i].username != username)
  {
    if accounts == [] then None
    else if accounts[0].username == username then Some(accounts[0])
    else
      var rest := FindByUsername(accounts[1..], username);
      if rest.Some? then
        var k :| 0 <= k < |accounts[1..]| && accounts[1..][k] == rest.value
          && forall i :: 0 <= i < k ==> accounts[1..][i].username != username;
        assert accounts[k + 1] == rest.value;
        rest
      else rest
  }

  /** The index `splice(start, 1)` removes at: a negative start counts from
      the end, and a start past the end removes nothing. */
  function SpliceIndex(length: nat, start: int): (k: nat)
    ensures k <= length
    ensures 0 <= start < length ==> k == start
    ensures start >= length ==> k == length
    ensures start < 0 ==> k == if length + start < 0 then 0 else length + start
  {
    if start < 0 then (if length + start < 0 then 0 else length + start)
    else if start > length then length
    else start
  }

  /** `s.splice(start, 1)` applied to `s`: the element at the normalised
      index is gone, the rest keep their order. */
  function SpliceOne<T>(s: seq<T>, start: int): (r: seq<T>)
    ensures var k := SpliceIndex(|s|, start);
      (k == |s| ==> r == s)
      && (k < |s| ==> (|r| == |s| - 1
            && (forall i :: 0 <= i < k ==> r[i] == s[i])
            && (forall i :: k <= i < |r| ==> r[i] == s[i + 1])))
  {
    var k := SpliceIndex(|s|, start);
    if k == |s| then s else s[..k] + s[k + 1..]
  }

  /** Exactly one element is removed when the index lands inside. */
  lemma SpliceOneRemovesOne<T>(s: seq<T>, start: int)
    requires SpliceIndex(|s|, start) < |s|
    ensures multiset(SpliceOne(s, start)) + multiset{s[SpliceIndex(|s|, start)]} == multiset(s)
  {
    var k := SpliceIndex(|s|, start);
    assert s == s[..k] + [s[k]] + s[k + 1..];
  }

  /** `handleDeleteUpload`: with confirmation and a setter, the upload at
      `uploadIndex` leaves that user's bucket when the bucket exists;
      every other bucket is untouched. */
  function HandleDeleteUpload(buckets: Buckets, username: string, uploadIndex: int, confirmed: bool, hasSetter: bool): (r: Buckets)
    ensures !(confirmed && hasSetter && username in buckets) ==> r == buckets
    ensures r.Keys == buckets.Keys
    ensures forall u :: u in buckets && u != username ==> r[u] == buckets[u]
    ensures confirmed && hasSetter && username in buckets ==> r[username] == SpliceOne(buckets[username], uploadIndex)
  {
    if confirmed && hasSetter && username in buckets then
      buckets[username := SpliceOne(buckets[username], uploadIndex)]
    else buckets
  }
}

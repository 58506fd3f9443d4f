/**
 * The friendship handlers of server/src/controllers/friendController.ts:
 * `sendFriendRequest`, `acceptFriendRequest`, `getFriends`, `getPendingRequests` and
 * `inviteFriend`.
 *
 * The friendship collection is a FriendshipStore whose `records` sequence (in
 * insertion order, the order `findOne` scans) grows on a new request and has one
 * status changed on acceptance. A friendship id the database would generate is a
 * parameter.
 */
module FriendController {
  import opened Common
  import opened Models

  datatype FriendStatus = Pending | Accepted

  datatype Friendship = Friendship(id: string, requester: UserId, recipient: UserId, status: FriendStatus)

  /** The two ends of `f` are `a` and `b`, in either direction. */
  predicate Between(f: Friendship, a: UserId, b: UserId)
  {
    (f.requester == a && f.recipient == b) || (f.requester == b && f.recipient == a)
  }

  /** `Friendship.findOne({ $or: [a→b, b→a] })`: the first record between the two. */
  function FindBetween(records: seq<Friendship>, a: UserId, b: UserId): (r: Option<Friendship>)
    ensures r.Some? ==> r.value in records && Between(r.value, a, b)
    ensures r.None? <==> forall f :: f in records ==> !Between(f, a, b)
  {
    if records == [] then None
    else if Between(records[0], a, b) then Some(records[0])
    else FindBetween(records[1..], a, b)
  }

  /** The position of the record with id `id`, if any (`Friendship.findById`). */
  function IndexOfId(records: seq<Friendship>, id: string): (r: Option<nat>)
    ensures r.Some? ==> r.value < |records| && records[r.value].id == id
    ensures r.None? <==> forall i :: 0 <= i < |records| ==> records[i].id != id
  {
    if records == [] then None
    else if records[|records| - 1].id == id then Some(|records| - 1)
    else IndexOfId(records[..|records| - 1], id)
  }

  /**
   * The table's standing facts: ids are unique, nobody is their own friend, and two
   * users share at most one record whatever its direction (which implies the
   * schema's unique (requester, recipient) index).
   */
  predicate ValidTable(records: seq<Friendship>)
  {
    && (forall i, j :: 0 <= i < j < |records| ==> records[i].id != records[j].id)
    && (forall i :: 0 <= i < |records| ==> records[i].requester != records[i].recipient)
    && (forall i, j :: 0 <= i < j < |records| ==> !Between(records[j], records[i].requester, records[i].recipient))
  }

  /** sendFriendRequest's reply, guard by guard. */
  function SendOutcome(records: seq<Friendship>, users: seq<User>, requester: UserId, email: string, newId: string)
    : Response<Friendship>
  {
    var recipient := FindByEmail(users, email);
    if recipient.None? then Err(404, "User not found")
    else if recipient.value.id == requester then Err(400, "Cannot add yourself as a friend")
    else
      var existing := FindBetween(records, requester, recipient.value.id);
      if existing.Some? then
        if existing.value.status == Accepted then Err(400, "Already friends")
        else if existing.value.requester == requester then Err(400, "Friend request already sent")
        else Err(400, "They already sent you a request")
      else if IndexOfId(records, newId).Some? then Err(500, "Server error")
      else Created(Friendship(newId, requester, recipient.value.id, Pending))
  }

  /** acceptFriendRequest's reply. */
  function AcceptOutcome(records: seq<Friendship>, userId: UserId, friendshipId: string): Response<Friendship>
  {
    var i := IndexOfId(records, friendshipId);
    if i.None? then Err(404, "Friend request not found")
    else if records[i.value].recipient != userId then Err(403, "Not authorized")
    else Ok(records[i.value].(status := Accepted))
  }

  /** The table after acceptFriendRequest: the one record's status set, nothing else. */
  function AcceptedTable(records: seq<Friendship>, userId: UserId, friendshipId: string): seq<Friendship>
  {
    var i := IndexOfId(records, friendshipId);
    if i.Some? && records[i.value].recipient == userId then records[i.value := records[i.value].(status := Accepted)]
    else records
  }

  /** The end of `f` that is not `u` (the requester when `u` is not the requester). */
  function OtherParty(f: Friendship, u: UserId): UserId
  {
    if f.requester == u then f.recipient else f.requester
  }

  /** getFriends: for every accepted friendship involving `u`, in table order, the other party. */
  function FriendsOf(records: seq<Friendship>, u: UserId): (r: seq<UserId>)
    ensures forall v :: v in r <==>
      exists f :: f in records && f.status == Accepted && (f.requester == u || f.recipient == u) && v == OtherParty(f, u)
  {
    if records == [] then []
    else
      var f := records[|records| - 1];
      FriendsOf(records[..|records| - 1], u)
        + (if f.status == Accepted && (f.requester == u || f.recipient == u) then [OtherParty(f, u)] else [])
  }

  /** getPendingRequests: the pending records whose recipient is `u`, in table order. */
  function PendingFor(records: seq<Friendship>, u: UserId): (r: seq<Friendship>)
    ensures forall f :: f in r <==> f in records && f.recipient == u && f.status == Pending
  {
    if records == [] then []
    else
      var f := records[|records| - 1];
      PendingFor(records[..|records| - 1], u) + (if f.recipient == u && f.status == Pending then [f] else [])
  }

  /** inviteFriend: refused for an email that already has an account; the email itself is left out. */
  function InviteFriend(users: seq<User>, email: string): (r: Response<string>)
    ensures r.Err? <==> exists i :: 0 <= i < |users| && users[i].email == email
    ensures r.Err? ==> r == Err(400, "User already exists. You can send them a friend request.")
    ensures r.Ok? ==> r.value == "Invitation sent successfully"
  {
    if FindByEmail(users, email).Some? then Err(400, "User already exists. You can send them a friend request.")
    else Ok("Invitation sent successfully")
  }

  class FriendshipStore {
    var records: seq<Friendship>

    constructor ()
      ensures records == []
    {
      records := [];
    }

    /** sendFriendRequest: the reply, and a created request is appended to the table. */
    method SendFriendRequest(users: seq<User>, requester: UserId, email: string, newId: string)
      returns (r: Response<Friendship>)
      modifies this
      ensures r == SendOutcome(old(records), users, requester, email, newId)
      ensures records == old(records) + (if r.Created? then [r.value] else [])
    {
      var recipient := FindByEmail(users, email);
      if recipient.None? {
        return Err(404, "User not found");
      }
      if recipient.value.id == requester {
        return Err(400, "Cannot add yourself as a friend");
      }
      var existingFriendship := FindBetween(records, requester, recipient.value.id);
      if existingFriendship.Some? {
        if existingFriendship.value.status == Accepted {
          return Err(400, "Already friends");
        }
        if existingFriendship.value.requester == requester {
          return Err(400, "Friend request already sent");
        }
        return Err(400, "They already sent you a request");
      }
      if IndexOfId(records, newId).Some? {
        return Err(500, "Server error");
      }
      var friendship := Friendship(newId, requester, recipient.value.id, Pending);
      records := records + [friendship];
      r := Created(friendship);
    }

    /** acceptFriendRequest: only the recipient may accept; the record's status is set in place. */
    method AcceptFriendRequest(userId: UserId, friendshipId: string) returns (r: Response<Friendship>)
      modifies this
      ensures r == AcceptOutcome(old(records), userId, friendshipId)
      ensures records == AcceptedTable(old(records), userId, friendshipId)
    {
      var i := IndexOfId(records, friendshipId);
      if i.None? {
        return Err(404, "Friend request not found");
      }
      var friendship := records[i.value];
      if friendship.recipient != userId {
        return Err(403, "Not authorized");
      }
      friendship := friendship.(status := Accepted);
      records := records[i.value := friendship];
      r := Ok(friendship);
    }
  }

  // ---------------------------------------------------------------------------
  // Properties
  // ---------------------------------------------------------------------------

  /**
   * Guards of sendFriendRequest: 404 for an unknown email, 400 for oneself, and for a
   * record in either direction 400 with the message its status and direction pick.
   */
  lemma SendGuards(records: seq<Friendship>, users: seq<User>, requester: UserId, email: string, newId: string)
    ensures var r := SendOutcome(records, users, requester, email, newId);
      var recipient := FindByEmail(users, email);
      && (r == Err(404, "User not found") <==> forall i :: 0 <= i < |users| ==> users[i].email != email)
      && (r == Err(400, "Cannot add yourself as a friend") <==> recipient.Some? && recipient.value.id == requester)
      && (r.Created? ==>
            (recipient.Some? && recipient.value.id != requester
             && forall f :: f in records ==> !Between(f, requester, recipient.value.id)))
      && (recipient.Some? && recipient.value.id != requester && FindBetween(records, requester, recipient.value.id).Some? ==>
            var f := FindBetween(records, requester, recipient.value.id).value;
            && (f.status == Accepted ==> r == Err(400, "Already friends"))
            && (f.status == Pending && f.requester == requester ==> r == Err(400, "Friend request already sent"))
            && (f.status == Pending && f.requester != requester ==> r == Err(400, "They already sent you a request")))
  {
    var recipient := FindByEmail(users, email);
    if recipient.Some? {
      assert recipient.value in users;
    }
  }

  /** A created request is one pending record from the requester to the found user, never to oneself. */
  lemma SendCreates(records: seq<Friendship>, users: seq<User>, requester: UserId, email: string, newId: string)
    requires SendOutcome(records, users, requester, email, newId).Created?
    ensures var f := SendOutcome(records, users, requester, email, newId).value;
      && f.id == newId && f.requester == requester && f.status == Pending
      && f.recipient != requester
      && (exists i :: 0 <= i < |users| && users[i].id == f.recipient && users[i].email == email)
  {
    var recipient := FindByEmail(users, email).value;
    var i :| 0 <= i < |users| && users[i] == recipient;
  }

  /** sendFriendRequest keeps the table's facts: still one record per pair and no self-friendship. */
  lemma SendKeepsTableValid(records: seq<Friendship>, users: seq<User>, requester: UserId, email: string, newId: string)
    requires ValidTable(records)
    requires SendOutcome(records, users, requester, email, newId).Created?
    ensures ValidTable(records + [SendOutcome(records, users, requester, email, newId).value])
  {
    var f := SendOutcome(records, users, requester, email, newId).value;
    var t := records + [f];
    assert forall i :: 0 <= i < |records| ==> records[i].id != newId;
    assert forall g :: g in records ==> !Between(g, f.requester, f.recipient);
    forall i, j | 0 <= i < j < |t| ensures !Between(t[j], t[i].requester, t[i].recipient) {
      if j == |records| {
        assert t[i] in records;
        assert !Between(t[i], f.requester, f.recipient);
      } else {
        assert t[i] == records[i] && t[j] == records[j];
      }
    }
  }

  /** Only the recipient may accept: 404 for an unknown id, 403 for anyone else. */
  lemma AcceptGuards(records: seq<Friendship>, userId: UserId, friendshipId: string)
    ensures var r := AcceptOutcome(records, userId, friendshipId);
      && (r == Err(404, "Friend request not found") <==> forall i :: 0 <= i < |records| ==> records[i].id != friendshipId)
      && (r == Err(403, "Not authorized") <==>
            IndexOfId(records, friendshipId).Some? && records[IndexOfId(records, friendshipId).value].recipient != userId)
      && (r.Ok? ==> r.value.id == friendshipId && r.value.recipient == userId && r.value.status == Accepted)
  {
  }

  /**
   * Acceptance sets the one record's status and changes nothing else; accepting
   * again changes nothing; the table keeps its facts.
   */
  lemma AcceptEffect(records: seq<Friendship>, userId: UserId, friendshipId: string)
    requires ValidTable(records)
    ensures var t := AcceptedTable(records, userId, friendshipId);
      && |t| == |records|
      && (forall i :: 0 <= i < |t| ==>
            t[i].id == records[i].id && t[i].requester == records[i].requester && t[i].recipient == records[i].recipient)
      && (forall i :: 0 <= i < |t| && records[i].id != friendshipId ==> t[i] == records[i])
      && (AcceptOutcome(records, userId, friendshipId).Ok? ==>
            forall i :: 0 <= i < |t| && records[i].id == friendshipId ==> t[i].status == Accepted)
      && AcceptedTable(t, userId, friendshipId) == t
      && ValidTable(t)
  {
    var t := AcceptedTable(records, userId, friendshipId);
    var ix := IndexOfId(records, friendshipId);
    if ix.Some? && records[ix.value].recipient == userId {
      var k := ix.value;
      forall i | 0 <= i < |t| && records[i].id != friendshipId ensures t[i] == records[i] {
        assert i != k;
      }
      forall i | 0 <= i < |t| && records[i].id == friendshipId ensures t[i].status == Accepted {
        assert i == k;
      }
      IndexUnique(t, friendshipId, k);
      assert t[k := t[k].(status := Accepted)] == t;
      forall i, j | 0 <= i < j < |t| ensures !Between(t[j], t[i].requester, t[i].recipient) {
        assert Between(t[j], t[i].requester, t[i].recipient) == Between(records[j], records[i].requester, records[i].recipient);
      }
    } else {
      if ix.Some? {
        IndexUnique(t, friendshipId, ix.value);
      }
    }
  }

  /** With unique ids the lookup by id finds the one position that holds it. */
  lemma IndexUnique(records: seq<Friendship>, id: string, k: nat)
    requires forall i, j :: 0 <= i < j < |records| ==> records[i].id != records[j].id
    requires k < |records| && records[k].id == id
    ensures IndexOfId(records, id) == Some(k)
  {
    assert IndexOfId(records, id).Some?;
  }

  /** Friendship is symmetric: `v` is among `u`'s friends exactly when `u` is among `v`'s. */
  lemma FriendsSymmetric(records: seq<Friendship>, u: UserId, v: UserId)
    ensures v in FriendsOf(records, u) <==> u in FriendsOf(records, v)
  {
    if v in FriendsOf(records, u) {
      var f :| f in records && f.status == Accepted && (f.requester == u || f.recipient == u) && v == OtherParty(f, u);
      assert u == OtherParty(f, v);
    }
    if u in FriendsOf(records, v) {
      var f :| f in records && f.status == Accepted && (f.requester == v || f.recipient == v) && u == OtherParty(f, v);
      assert v == OtherParty(f, u);
    }
  }

  /** A pending request is nobody's friendship yet: it shows up only for its recipient's pending list. */
  lemma PendingNotFriends(records: seq<Friendship>, f: Friendship)
    requires f in records && f.status == Pending
    ensures f in PendingFor(records, f.recipient)
    ensures forall u :: u != f.recipient ==> f !in PendingFor(records, u)
  {
  }
}

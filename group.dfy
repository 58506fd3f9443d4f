/**
 * The group handlers of server/src/controllers/groupController.ts: `createGroup`
 * (the member list it builds), `getGroupById` (its guards) and `addMember` (its
 * guards and the append).
 *
 * The group collection is a GroupStore whose `groups` map is updated in place; the
 * user collection is a read-only sequence in collection order. A group id the
 * database would generate is a parameter.
 */
module GroupController {
  import opened Common
  import opened Models

  /** `User.find({ email: { $in: emails } })`: the users with one of the emails, in collection order. */
  function UsersWithEmails(users: seq<User>, emails: seq<string>): (r: seq<User>)
    ensures forall x :: x in r <==> x in users && x.email in emails
  {
    if users == [] then []
    else
      var last := users[|users| - 1];
      UsersWithEmails(users[..|users| - 1], emails) + (if last.email in emails then [last] else [])
  }

  /** The ids of `found` other than the creator's, in order. */
  function OthersOf(found: seq<User>, creator: UserId): seq<UserId>
  {
    if found == [] then []
    else
      var last := found[|found| - 1];
      OthersOf(found[..|found| - 1], creator) + (if last.id != creator then [last.id] else [])
  }

  /** `memberIds`: the creator, then the others among the found users. */
  function MemberIds(creator: UserId, found: seq<User>): seq<UserId>
  {
    [creator] + OthersOf(found, creator)
  }

  /** The `forEach`/`push` loop of createGroup. */
  method CollectMemberIds(creator: UserId, found: seq<User>) returns (memberIds: seq<UserId>)
    ensures memberIds == MemberIds(creator, found)
    ensures memberIds[0] == creator && Count(memberIds, creator) == 1
  {
    memberIds := [creator];
    for k := 0 to |found|
      invariant memberIds == [creator] + OthersOf(found[..k], creator)
    {
      assert found[..k + 1][..k] == found[..k];
      if found[k].id != creator {
        memberIds := memberIds + [found[k].id];
      }
    }
    assert found[..|found|] == found;
    MemberIdsFacts(creator, found);
  }

  /** `group.members.some(m => m === u)`. */
  predicate IsMember(g: Group, u: UserId)
  {
    u in g.members
  }

  /** addMember's reply, guard by guard; on success the group with the new member appended. */
  function AddMemberOutcome(groups: map<GroupId, Group>, users: seq<User>, caller: UserId, id: GroupId, email: string): Response<Group>
  {
    if id !in groups then Err(404, "Group not found")
    else if !IsMember(groups[id], caller) then Err(403, "Not authorized")
    else if FindByEmail(users, email).None? then Err(404, "User not found")
    else if IsMember(groups[id], FindByEmail(users, email).value.id) then Err(400, "User already in group")
    else Ok(groups[id].(members := groups[id].members + [FindByEmail(users, email).value.id]))
  }

  class GroupStore {
    var groups: map<GroupId, Group>

    constructor ()
      ensures groups == map[]
    {
      groups := map[];
    }

    /**
     * createGroup: the member list is the creator followed by the other users whose
     * email was listed; a missing name or a clashing id fails in `Group.create` (500).
     */
    method CreateGroup(users: seq<User>, caller: UserId, name: string, emails: Option<seq<string>>, newId: GroupId)
      returns (r: Response<Group>)
      modifies this
      ensures name == "" || newId in old(groups) ==> r == Err(500, "Server error") && groups == old(groups)
      ensures name != "" && newId !in old(groups) ==>
        var found := if emails.Some? && |emails.value| > 0 then UsersWithEmails(users, emails.value) else [];
        && r == Created(Group(name, caller, MemberIds(caller, found)))
        && groups == old(groups)[newId := r.value]
    {
      var found: seq<User> := [];
      if emails.Some? && |emails.value| > 0 {
        found := UsersWithEmails(users, emails.value);
      }
      var memberIds := CollectMemberIds(caller, found);
      if name == "" || newId in groups {
        return Err(500, "Server error");
      }
      var group := Group(name, caller, memberIds);
      groups := groups[newId := group];
      r := Created(group);
    }

    /** getGroupById: 404 for a missing group, then 403 for a caller who is not a member. */
    function GetGroupById(caller: UserId, id: GroupId): (r: Response<Group>)
      reads this
      ensures id !in groups <==> r == Err(404, "Group not found")
      ensures (id in groups && caller !in groups[id].members) <==> r == Err(403, "Not authorized to view this group")
      ensures r.Ok? <==> id in groups && caller in groups[id].members
      ensures r.Ok? ==> r.value == groups[id]
    {
      if id !in groups then Err(404, "Group not found")
      else if !IsMember(groups[id], caller) then Err(403, "Not authorized to view this group")
      else Ok(groups[id])
    }

    /** addMember: the reply, and on success the group with the user appended is saved. */
    method AddMember(users: seq<User>, caller: UserId, id: GroupId, email: string) returns (r: Response<Group>)
      modifies this
      ensures r == AddMemberOutcome(old(groups), users, caller, id, email)
      ensures groups == if r.Ok? then old(groups)[id := r.value] else old(groups)
    {
      if id !in groups {
        return Err(404, "Group not found");
      }
      var group := groups[id];
      if !IsMember(group, caller) {
        return Err(403, "Not authorized");
      }
      var userToAdd := FindByEmail(users, email);
      if userToAdd.None? {
        return Err(404, "User not found");
      }
      if IsMember(group, userToAdd.value.id) {
        return Err(400, "User already in group");
      }
      group := group.(members := group.members + [userToAdd.value.id]);
      groups := groups[id := group];
      r := Ok(group);
    }
  }

  // ---------------------------------------------------------------------------
  // Properties
  // ---------------------------------------------------------------------------

  lemma {:induction false} OthersOfFacts(found: seq<User>, creator: UserId)
    ensures creator !in OthersOf(found, creator)
    ensures forall u :: u in OthersOf(found, creator) <==> u != creator && exists x :: x in found && x.id == u
    ensures UniqueUserIds(found) ==> NoDuplicates(OthersOf(found, creator))
  {
    if found != [] {
      var p, x := found[..|found| - 1], found[|found| - 1];
      OthersOfFacts(p, creator);
      assert forall y :: y in found <==> y in p || y == x;
      if UniqueUserIds(found) {
        assert UniqueUserIds(p) by {
          forall i, j | 0 <= i < j < |p| ensures p[i].id != p[j].id {
            assert p[i] == found[i] && p[j] == found[j];
          }
        }
        forall y | y in p ensures y.id != x.id {
          var i :| 0 <= i < |p| && p[i] == y;
          assert found[i] == y;
        }
        var o := OthersOf(p, creator);
        if x.id != creator {
          assert x.id !in o;
          var o' := o + [x.id];
          forall i, j | 0 <= i < j < |o'| ensures o'[i] != o'[j] {
            if j == |o| {
              assert o'[i] == o[i];
            } else {
              assert o'[i] == o[i] && o'[j] == o[j];
            }
          }
        }
      }
    }
  }

  /**
   * The creator comes first and exactly once; every other id is a found user's, and
   * with duplicate-free found users no id appears twice.
   */
  lemma MemberIdsFacts(creator: UserId, found: seq<User>)
    ensures MemberIds(creator, found)[0] == creator
    ensures Count(MemberIds(creator, found), creator) == 1
    ensures forall u :: u in MemberIds(creator, found)[1..] <==> u != creator && exists x :: x in found && x.id == u
    ensures UniqueUserIds(found) ==> NoDuplicates(MemberIds(creator, found))
  {
    var others := OthersOf(found, creator);
    OthersOfFacts(found, creator);
    CountAbsent(others, creator);
    CountPrepend(creator, others);
    assert MemberIds(creator, found)[1..] == others;
  }

  lemma {:induction false} CountPrepend(x: UserId, s: seq<UserId>)
    ensures Count([x] + s, x) == Count(s, x) + 1
  {
    if s != [] {
      assert ([x] + s)[..|[x] + s| - 1] == [x] + s[..|s| - 1];
      CountPrepend(x, s[..|s| - 1]);
    } else {
      assert ([x] + s)[..0] == [];
    }
  }

  /** With no member emails, the new group holds the creator alone. */
  lemma NoEmailsOnlyCreator(creator: UserId)
    ensures MemberIds(creator, []) == [creator]
  {
  }

  /**
   * Guard order of addMember: 404 missing group, then 403 for a caller outside it,
   * then 404 for an unknown email, then 400 for a user already in the group.
   */
  lemma AddMemberGuards(groups: map<GroupId, Group>, users: seq<User>, caller: UserId, id: GroupId, email: string)
    ensures var r := AddMemberOutcome(groups, users, caller, id, email);
      && (r == Err(404, "Group not found") <==> id !in groups)
      && (r == Err(403, "Not authorized") <==> id in groups && caller !in groups[id].members)
      && (r == Err(404, "User not found") <==>
            id in groups && caller in groups[id].members && forall i :: 0 <= i < |users| ==> users[i].email != email)
      && (r == Err(400, "User already in group") <==>
            id in groups && caller in groups[id].members && FindByEmail(users, email).Some?
            && FindByEmail(users, email).value.id in groups[id].members)
      && (r.Ok? <==>
            id in groups && caller in groups[id].members && FindByEmail(users, email).Some?
            && FindByEmail(users, email).value.id !in groups[id].members)
  {
    var f := FindByEmail(users, email);
    if f.None? {
    } else {
      assert f.value in users && f.value.email == email;
    }
  }

  /**
   * A successful addMember appends the user with that email: the list grows by one,
   * every earlier member keeps its place, the name and creator do not change, and no
   * id appears twice if none did before.
   */
  lemma AddMemberAppends(groups: map<GroupId, Group>, users: seq<User>, caller: UserId, id: GroupId, email: string)
    requires AddMemberOutcome(groups, users, caller, id, email).Ok?
    ensures var g, g' := groups[id], AddMemberOutcome(groups, users, caller, id, email).value;
      && |g'.members| == |g.members| + 1
      && g'.members[..|g.members|] == g.members
      && g'.members[|g.members|] !in g.members
      && (exists x :: x in users && x.email == email && x.id == g'.members[|g.members|])
      && g'.name == g.name && g'.creator == g.creator
      && (NoDuplicates(g.members) ==> NoDuplicates(g'.members))
  {
    var g := groups[id];
    var x := FindByEmail(users, email).value;
    assert x in users && x.email == email;
    var ms := g.members + [x.id];
    assert ms[..|g.members|] == g.members;
  }
}

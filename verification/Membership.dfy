/**
 Organisations, roles, memberships and invitations of the auth service. Each operation is
 one atomic step on the store.
 */
module Membership {

  type UserId = nat
  type OrgId = nat
  type RoleId = nat

  datatype Role = Role(org: OrgId, name: string)

  datatype Invitation = Invitation(email: string, org: OrgId, role: RoleId, expiresAt: int)

  datatype State = State(
    orgs: map<OrgId, string>,
    roles: map<RoleId, Role>,
    members: map<(UserId, OrgId), RoleId>,
    invitations: map<string, Invitation>,
    users: map<string, UserId>,
    nextOrg: OrgId,
    nextRole: RoleId)

  datatype Error =
    | SlugTaken
    | MembershipNotFound
    | MembershipExists
    | RoleNotFound
    | OrgNotFound
    | InvitationNotFound
    | LastOwner
    | Internal

  datatype Outcome = Done | PendingSignup | Refused(error: Error)

  datatype Op =
    | SignUp(email: string, user: UserId)
    | CreateOrg(creator: UserId, slug: string)
    | DeleteOrg(org: OrgId)
    | UpdateRole(org: OrgId, user: UserId, role: RoleId)
    | Remove(org: OrgId, user: UserId)
    | Invite(org: OrgId, email: string, role: RoleId, token: string, expiresAt: int)
    | Accept(token: string, now: int)

  const Initial := State(map[], map[], map[], map[], map[], 0, 0)

  /** The memberships of an organisation that have one particular role. */
  function WithRole(s: State, org: OrgId, role: RoleId): set<(UserId, OrgId)> {
    set key | key in s.members && key.1 == org && s.members[key] == role
  }

  /** The lookups and checks of update_member_role, in their order. */
  function UpdateOutcome(s: State, org: OrgId, user: UserId, role: RoleId): Outcome {
    if (user, org) !in s.members then Refused(MembershipNotFound)
    else if s.members[(user, org)] !in s.roles then Refused(Internal)
    else if role !in s.roles || s.roles[role].org != org then Refused(RoleNotFound)
    else if s.roles[s.members[(user, org)]].name == "owner" && s.roles[role].name != "owner" &&
            |WithRole(s, org, s.members[(user, org)])| <= 1 then Refused(LastOwner)
    else Done
  }

  function RemoveOutcome(s: State, org: OrgId, user: UserId): Outcome {
    if (user, org) !in s.members then Refused(MembershipNotFound)
    else if s.members[(user, org)] !in s.roles then Refused(Internal)
    else if s.roles[s.members[(user, org)]].name == "owner" &&
            |WithRole(s, org, s.members[(user, org)])| <= 1 then Refused(LastOwner)
    else Done
  }

  function InviteOutcome(s: State, org: OrgId, role: RoleId, token: string): Outcome {
    if role !in s.roles || s.roles[role].org != org then Refused(RoleNotFound)
    else if org !in s.orgs then Refused(OrgNotFound)
    else if token in s.invitations then Refused(Internal)
    else Done
  }

  function AcceptOutcome(s: State, token: string, now: int): Outcome {
    if token !in s.invitations || s.invitations[token].expiresAt < now then Refused(InvitationNotFound)
    else if s.invitations[token].email !in s.users then PendingSignup
    else if (s.users[s.invitations[token].email], s.invitations[token].org) in s.members then Refused(MembershipExists)
    else Done
  }

  function OutcomeOf(s: State, op: Op): Outcome {
    match op
    case SignUp(_, _) => Done
    case CreateOrg(_, slug) => if exists org | org in s.orgs :: s.orgs[org] == slug then Refused(SlugTaken) else Done
    case DeleteOrg(org) => if org in s.orgs then Done else Refused(OrgNotFound)
    case UpdateRole(org, user, role) => UpdateOutcome(s, org, user, role)
    case Remove(org, user) => RemoveOutcome(s, org, user)
    case Invite(org, _, role, token, _) => InviteOutcome(s, org, role, token)
    case Accept(token, now) => AcceptOutcome(s, token, now)
  }

  /** An operation that does not end in `Done` leaves the store as it was. */
  function Apply(s: State, op: Op): State {
    if !OutcomeOf(s, op).Done? then s
    else match op
      case SignUp(email, user) => s.(users := s.users[email := user])
      case CreateOrg(creator, slug) =>
        s.(orgs := s.orgs[s.nextOrg := slug],
           roles := s.roles[s.nextRole := Role(s.nextOrg, "owner")]
                           [s.nextRole + 1 := Role(s.nextOrg, "admin")]
                           [s.nextRole + 2 := Role(s.nextOrg, "member")],
           members := s.members[(creator, s.nextOrg) := s.nextRole],
           nextOrg := s.nextOrg + 1,
           nextRole := s.nextRole + 3)
      case DeleteOrg(org) =>
        s.(orgs := s.orgs - {org},
           roles := map r | r in s.roles && s.roles[r].org != org :: s.roles[r],
           members := map key | key in s.members && key.1 != org :: s.members[key],
           invitations := map t | t in s.invitations && s.invitations[t].org != org :: s.invitations[t])
      case UpdateRole(org, user, role) => s.(members := s.members[(user, org) := role])
      case Remove(org, user) => s.(members := s.members - {(user, org)})
      case Invite(org, email, role, token, expiresAt) =>
        s.(invitations := s.invitations[token := Invitation(email, org, role, expiresAt)])
      case Accept(token, _) =>
        var i := s.invitations[token];
        s.(members := s.members[(s.users[i.email], i.org) := i.role], invitations := s.invitations - {token})
  }

  function Run(ops: seq<Op>): State {
    if ops == [] then Initial else Apply(Run(ops[..|ops| - 1]), ops[|ops| - 1])
  }

  // The invariant

  predicate IsOwner(s: State, user: UserId, org: OrgId) {
    (user, org) in s.members && s.members[(user, org)] in s.roles && s.roles[s.members[(user, org)]].name == "owner"
  }

  predicate HasOwner(s: State, org: OrgId) {
    exists key | key in s.members :: key.1 == org && IsOwner(s, key.0, org)
  }

  predicate Owned(s: State) {
    forall org | org in s.orgs :: HasOwner(s, org)
  }

  /** Ids are fresh, and a role, a membership or an invitation never crosses organisations. */
  predicate Filed(s: State) {
    && (forall org | org in s.orgs :: org < s.nextOrg)
    && (forall r | r in s.roles :: r < s.nextRole && s.roles[r].org in s.orgs)
    && (forall key | key in s.members :: RoleIsOf(s, s.members[key], key.1))
    && (forall t | t in s.invitations :: RoleIsOf(s, s.invitations[t].role, s.invitations[t].org))
  }

  predicate RoleIsOf(s: State, role: RoleId, org: OrgId) {
    role in s.roles && s.roles[role].org == org
  }

  predicate NamesUnique(s: State) {
    forall r, q | r in s.roles && q in s.roles && s.roles[r] == s.roles[q] :: r == q
  }

  predicate Inv(s: State) {
    Filed(s) && NamesUnique(s) && Owned(s)
  }

  lemma FiledKept(s: State, op: Op)
    requires Filed(s)
    ensures Filed(Apply(s, op))
  {
    if op.CreateOrg? {
      FiledCreate(s, op.creator, op.slug);
    } else if op.DeleteOrg? {
      FiledDelete(s, op.org);
    } else {
      FiledRest(s, op);
    }
  }

  lemma FiledCreate(s: State, creator: UserId, slug: string)
    requires Filed(s)
    ensures Filed(Apply(s, CreateOrg(creator, slug)))
  {
    var s' := Apply(s, CreateOrg(creator, slug));
    hide OutcomeOf, Apply;
    if s' != s {
      CreateEffect(s, creator, slug);
      assert forall org | org in s'.orgs :: org < s'.nextOrg;
      assert forall r | r in s'.roles :: r < s'.nextRole && s'.roles[r].org in s'.orgs;
      forall key | key in s'.members
        ensures RoleIsOf(s', s'.members[key], key.1)
      {
        assert key != (creator, s.nextOrg) ==> RoleIsOf(s, s.members[key], key.1);
      }
      forall t | t in s'.invitations
        ensures RoleIsOf(s', s'.invitations[t].role, s'.invitations[t].org)
      {
        assert RoleIsOf(s, s.invitations[t].role, s.invitations[t].org);
      }
    }
  }

  /** What the creation of an organisation changes: its own entries, under fresh ids. */
  lemma CreateEffect(s: State, creator: UserId, slug: string)
    requires Filed(s) && Apply(s, CreateOrg(creator, slug)) != s
    ensures var s' := Apply(s, CreateOrg(creator, slug));
            && s'.orgs == s.orgs[s.nextOrg := slug] && s'.nextOrg == s.nextOrg + 1 && s'.nextRole == s.nextRole + 3
            && s'.members == s.members[(creator, s.nextOrg) := s.nextRole] && s'.invitations == s.invitations
            && (forall r :: r in s'.roles <==> r in s.roles || s.nextRole <= r < s.nextRole + 3)
            && (forall r | r in s.roles :: s'.roles[r] == s.roles[r])
            && (forall r | s.nextRole <= r < s.nextRole + 3 :: s'.roles[r].org == s.nextOrg)
  {
  }

  lemma FiledDelete(s: State, org: OrgId)
    requires Filed(s)
    ensures Filed(Apply(s, DeleteOrg(org)))
  {
  }

  lemma FiledRest(s: State, op: Op)
    requires Filed(s) && !op.CreateOrg? && !op.DeleteOrg?
    ensures Filed(Apply(s, op))
  {
  }

  lemma NamesKept(s: State, op: Op)
    requires Filed(s) && NamesUnique(s)
    ensures NamesUnique(Apply(s, op))
  {
    var s' := Apply(s, op);
    forall r, q | r in s'.roles && q in s'.roles && s'.roles[r] == s'.roles[q]
      ensures r == q
    {
      if op.CreateOrg? && s' != s {
        assert r in s.roles ==> s.roles[r].org < s.nextOrg;
        assert q in s.roles ==> s.roles[q].org < s.nextOrg;
      }
    }
  }

  /** Where more than one member has the same role, taking one away leaves another. */
  lemma AnotherRemains(s: State, org: OrgId, role: RoleId, user: UserId) returns (other: UserId)
    requires |WithRole(s, org, role)| > 1
    ensures (other, org) in WithRole(s, org, role) && other != user
  {
    var all := WithRole(s, org, role);
    var rest := all - {(user, org)};
    assert rest != {} by {
      assert all <= rest + {(user, org)};
      SubsetSize(all, rest + {(user, org)});
    }
    var key :| key in rest;
    other := key.0;
    assert key == (other, org);
  }

  lemma {:induction false} SubsetSize<T>(a: set<T>, b: set<T>)
    requires a <= b
    ensures |a| <= |b|
  {
    assert b == a + (b - a);
  }

  /** An owner whose membership and role are untouched is still an owner. */
  lemma OwnerStays(s: State, s': State, org: OrgId)
    requires HasOwner(s, org) && Filed(s)
    requires forall key | key in s.members && key.1 == org :: key in s'.members && s'.members[key] == s.members[key]
    requires forall r | r in s.roles && s.roles[r].org == org :: r in s'.roles && s'.roles[r] == s.roles[r]
    ensures HasOwner(s', org)
  {
    hide Filed, HasOwner;
    var owner := SomeOwner(s, org);
    assert RoleIsOf(s, s.members[(owner, org)], org) by { MemberRole(s, owner, org); }
    OwnsIt(s', owner, org);
  }

  lemma MemberRole(s: State, user: UserId, org: OrgId)
    requires Filed(s) && (user, org) in s.members
    ensures RoleIsOf(s, s.members[(user, org)], org)
  {
  }

  lemma SomeOwner(s: State, org: OrgId) returns (owner: UserId)
    requires HasOwner(s, org)
    ensures IsOwner(s, owner, org)
  {
    var key :| key in s.members && key.1 == org && IsOwner(s, key.0, org);
    owner := key.0;
  }

  lemma OwnsIt(s: State, user: UserId, org: OrgId)
    requires IsOwner(s, user, org)
    ensures HasOwner(s, org)
  {
    assert (user, org) in s.members;
  }

  /** An owner other than the one at hand: the code's count guarantees that there is one. */
  lemma OwnerBeside(s: State, s': State, org: OrgId, user: UserId)
    requires HasOwner(s, org) && s'.roles == s.roles
    requires IsOwner(s, user, org) ==> |WithRole(s, org, s.members[(user, org)])| > 1
    requires forall key | key in s.members && key != (user, org) ::
               key in s'.members && s'.members[key] == s.members[key]
    ensures HasOwner(s', org)
  {
    hide HasOwner;
    var owner;
    if IsOwner(s, user, org) {
      owner := AnotherRemains(s, org, s.members[(user, org)], user);
    } else {
      owner := SomeOwner(s, org);
    }
    OwnsIt(s', owner, org);
  }

  lemma OwnedKept(s: State, op: Op)
    requires Filed(s) && Owned(s)
    ensures Owned(Apply(s, op))
  {
    hide HasOwner, Filed, WithRole;
    var s' := Apply(s, op);
    forall org | org in s'.orgs
      ensures HasOwner(s', org)
    {
      if op.CreateOrg? && org == s.nextOrg {
        CreatedOwned(s, op.creator, op.slug);
      } else if op.CreateOrg? {
        CreatedKeeps(s, op.creator, op.slug, org);
      } else if op.UpdateRole? && org == op.org && OutcomeOf(s, op).Done? {
        if s.roles[op.role].name == "owner" {
          OwnsIt(s', op.user, org);
        } else {
          OwnerBeside(s, s', org, op.user);
        }
      } else if op.Remove? && org == op.org && OutcomeOf(s, op).Done? {
        OwnerBeside(s, s', org, op.user);
      } else {
        OwnerStays(s, s', org);
      }
    }
  }

  lemma CreatedOwned(s: State, creator: UserId, slug: string)
    requires Filed(s) && s.nextOrg in Apply(s, CreateOrg(creator, slug)).orgs
    ensures HasOwner(Apply(s, CreateOrg(creator, slug)), s.nextOrg)
  {
    OwnsIt(Apply(s, CreateOrg(creator, slug)), creator, s.nextOrg);
  }

  lemma CreatedKeeps(s: State, creator: UserId, slug: string, org: OrgId)
    requires Filed(s) && HasOwner(s, org) && org != s.nextOrg
    ensures HasOwner(Apply(s, CreateOrg(creator, slug)), org)
  {
    hide HasOwner;
    OwnerStays(s, Apply(s, CreateOrg(creator, slug)), org);
  }

  lemma StepKeepsInv(s: State, op: Op)
    requires Inv(s)
    ensures Inv(Apply(s, op))
  {
    hide Filed, Owned, NamesUnique;
    FiledKept(s, op);
    NamesKept(s, op);
    OwnedKept(s, op);
  }

  lemma {:induction false} RunKeepsInv(ops: seq<Op>)
    ensures Inv(Run(ops))
    decreases |ops|
  {
    if ops != [] {
      RunKeepsInv(ops[..|ops| - 1]);
      StepKeepsInv(Run(ops[..|ops| - 1]), ops[|ops| - 1]);
    }
  }

  /** Over all sequences of operations every organisation keeps an owner. */
  lemma OwnerAlwaysRemains(ops: seq<Op>, org: OrgId)
    requires org in Run(ops).orgs
    ensures HasOwner(Run(ops), org)
  {
    RunKeepsInv(ops);
  }

  /** Every member's role is a role of the organisation it is a member of. */
  lemma RolesBelongToTheirOrg(ops: seq<Op>, user: UserId, org: OrgId)
    requires (user, org) in Run(ops).members
    ensures var s := Run(ops);
            s.members[(user, org)] in s.roles && s.roles[s.members[(user, org)]].org == org && org in s.orgs
  {
    RunKeepsInv(ops);
  }

  /** The code counts the members who share the role of an owner; in a reachable store these are the owners. */
  lemma CountsOwners(s: State, org: OrgId, user: UserId)
    requires Inv(s) && IsOwner(s, user, org)
    ensures |WithRole(s, org, s.members[(user, org)])| <= 1 <==>
            forall other: UserId :: IsOwner(s, other, org) ==> other == user
  {
    var role := s.members[(user, org)];
    var all := WithRole(s, org, role);
    assert (user, org) in all;
    forall other: UserId
      ensures IsOwner(s, other, org) <==> (other, org) in all
    {
      if IsOwner(s, other, org) {
        assert s.roles[s.members[(other, org)]] == Role(org, "owner") == s.roles[role];
      }
    }
    if |all| > 1 {
      var other := AnotherRemains(s, org, role, user);
      assert IsOwner(s, other, org);
    } else {
      assert all == {(user, org)} by {
        assert |all - {(user, org)}| == |all| - 1;
      }
    }
  }

  /** Refusing with LastOwner is never overcautious: it happens exactly to the only owner. */
  lemma LastOwnerIff(ops: seq<Op>, org: OrgId, user: UserId)
    ensures var s := Run(ops);
            RemoveOutcome(s, org, user) == Refused(LastOwner) <==>
            IsOwner(s, user, org) && forall other: UserId :: IsOwner(s, other, org) ==> other == user
  {
    var s := Run(ops);
    RunKeepsInv(ops);
    if IsOwner(s, user, org) {
      CountsOwners(s, org, user);
    }
  }

  /** How a change of role ends in any run: never in an internal error; the only owner stays one. */
  lemma RoleChangeEnds(ops: seq<Op>, org: OrgId, user: UserId, role: RoleId)
    ensures var s := Run(ops);
            OutcomeOf(s, UpdateRole(org, user, role)) ==
              if (user, org) !in s.members then Refused(MembershipNotFound)
              else if role !in s.roles || s.roles[role].org != org then Refused(RoleNotFound)
              else if s.roles[role].name != "owner" && IsOwner(s, user, org) &&
                      (forall other: UserId :: IsOwner(s, other, org) ==> other == user) then Refused(LastOwner)
              else Done
  {
    var s := Run(ops);
    RunKeepsInv(ops);
    if (user, org) in s.members {
      MemberRole(s, user, org);
      if IsOwner(s, user, org) {
        CountsOwners(s, org, user);
      }
    }
  }

  // Deleted users

  /** The store and the users that are disabled: `delete_user` disables, without a look at memberships. */
  datatype Site = Site(store: State, disabled: set<UserId>)

  datatype Event = Operation(op: Op) | DeleteUser(user: UserId)

  function Next(site: Site, e: Event): Site {
    match e
    case Operation(op) => site.(store := Apply(site.store, op))
    case DeleteUser(user) => site.(disabled := site.disabled + {user})
  }

  function RunSite(events: seq<Event>): Site {
    if events == [] then Site(Initial, {}) else Next(RunSite(events[..|events| - 1]), events[|events| - 1])
  }

  predicate IsActiveOwner(site: Site, user: UserId, org: OrgId) {
    IsOwner(site.store, user, org) && user !in site.disabled
  }

  predicate HasActiveOwner(site: Site, org: OrgId) {
    exists key | key in site.store.members :: key.1 == org && IsActiveOwner(site, key.0, org)
  }

  predicate IsOnlyActiveOwner(site: Site, user: UserId, org: OrgId) {
    && IsActiveOwner(site, user, org)
    && forall key | key in site.store.members && key.1 == org && IsActiveOwner(site, key.0, org) :: key.0 == user
  }

  /** The events that leave an organisation to disabled owners; each can be told before it happens. */
  predicate TakesLastActive(site: Site, e: Event, org: OrgId) {
    match e
    case DeleteUser(user) => IsOnlyActiveOwner(site, user, org)
    case Operation(op) =>
      OutcomeOf(site.store, op).Done? &&
      match op
      case CreateOrg(creator, _) => org == site.store.nextOrg && creator in site.disabled
      case Remove(o, user) => o == org && IsOnlyActiveOwner(site, user, org)
      case UpdateRole(o, user, role) =>
        o == org && IsOnlyActiveOwner(site, user, org) && site.store.roles[role].name != "owner"
      case _ => false
  }

  lemma ActiveOwnerIs(site: Site, user: UserId, org: OrgId)
    requires IsActiveOwner(site, user, org)
    ensures HasActiveOwner(site, org)
  {
    assert (user, org) in site.store.members;
  }

  lemma SomeActiveOwner(site: Site, org: OrgId) returns (owner: UserId)
    requires HasActiveOwner(site, org)
    ensures IsActiveOwner(site, owner, org)
  {
    var key :| key in site.store.members && key.1 == org && IsActiveOwner(site, key.0, org);
    owner := key.0;
  }

  /** The operation takes the user's ownership away, if there was one. */
  predicate Demotes(s: State, op: Op, user: UserId, org: OrgId) {
    OutcomeOf(s, op).Done? &&
    (op == Remove(org, user) ||
     (op.UpdateRole? && op.org == org && op.user == user && s.roles[op.role].name != "owner"))
  }

  lemma OwnersAfter(s: State, op: Op, user: UserId, org: OrgId)
    requires Filed(s) && org in s.orgs && org in Apply(s, op).orgs
    ensures Demotes(s, op, user, org) ==> !IsOwner(Apply(s, op), user, org)
    ensures !Demotes(s, op, user, org) && IsOwner(s, user, org) ==> IsOwner(Apply(s, op), user, org)
    ensures op.Remove? || (op.UpdateRole? && !(op.org == org && op.user == user)) ==>
              (IsOwner(Apply(s, op), user, org) ==> IsOwner(s, user, org))
  {
    if op.CreateOrg? {
      if IsOwner(s, user, org) { OwnersAfterCreate(s, op.creator, op.slug, user, org); }
    } else if op.DeleteOrg? {
      if IsOwner(s, user, org) { OwnersAfterDelete(s, op.org, user, org); }
    } else {
      OwnersAfterRest(s, op, user, org);
    }
  }

  lemma OwnersAfterCreate(s: State, creator: UserId, slug: string, user: UserId, org: OrgId)
    requires Filed(s) && org in s.orgs && IsOwner(s, user, org)
    ensures IsOwner(Apply(s, CreateOrg(creator, slug)), user, org)
  {
    assert RoleIsOf(s, s.members[(user, org)], org);
  }

  lemma OwnersAfterDelete(s: State, gone: OrgId, user: UserId, org: OrgId)
    requires Filed(s) && org in Apply(s, DeleteOrg(gone)).orgs && IsOwner(s, user, org)
    ensures IsOwner(Apply(s, DeleteOrg(gone)), user, org)
  {
    assert RoleIsOf(s, s.members[(user, org)], org);
  }

  lemma OwnersAfterRest(s: State, op: Op, user: UserId, org: OrgId)
    requires !op.CreateOrg? && !op.DeleteOrg?
    ensures Demotes(s, op, user, org) ==> !IsOwner(Apply(s, op), user, org)
    ensures !Demotes(s, op, user, org) && IsOwner(s, user, org) ==> IsOwner(Apply(s, op), user, org)
    ensures op.Remove? || (op.UpdateRole? && !(op.org == org && op.user == user)) ==>
              (IsOwner(Apply(s, op), user, org) ==> IsOwner(s, user, org))
  {
    hide WithRole;
  }

  /**
   Exactly when an organisation keeps an owner who can still sign in: unless the event
   deletes, removes or demotes the only one, or a disabled user creates the organisation. The
   check for the last owner counts disabled owners, and deletion checks nothing.
   */
  lemma ActiveOwnerKeptIff(site: Site, e: Event, org: OrgId)
    requires Inv(site.store) && org in Next(site, e).store.orgs
    requires org in site.store.orgs ==> HasActiveOwner(site, org)
    ensures HasActiveOwner(Next(site, e), org) <==> !TakesLastActive(site, e, org)
  {
    var site' := Next(site, e);
    if org !in site.store.orgs {
      CreatedActive(site, e, org);
    } else if TakesLastActive(site, e, org) {
      if HasActiveOwner(site', org) {
        var other := SomeActiveOwner(site', org);
        TakenIsGone(site, e, other, org);
      }
    } else {
      var owner := StillActive(site, e, org);
      ActiveOwnerIs(site', owner, org);
    }
  }

  lemma CreatedActive(site: Site, e: Event, org: OrgId)
    requires Inv(site.store) && org in Next(site, e).store.orgs && org !in site.store.orgs
    ensures HasActiveOwner(Next(site, e), org) <==> !TakesLastActive(site, e, org)
  {
    hide Owned, NamesUnique, IsOnlyActiveOwner, HasActiveOwner;
    assert e.Operation? && e.op.CreateOrg? && org == site.store.nextOrg;
    var site' := Next(site, e);
    CreatorOwns(site.store, e.op.creator, e.op.slug);
    if e.op.creator in site.disabled {
      if HasActiveOwner(site', org) {
        var other := SomeActiveOwner(site', org);
        OnlyTheCreator(site.store, e.op.creator, e.op.slug, other);
      }
    } else {
      ActiveOwnerIs(site', e.op.creator, org);
    }
  }

  lemma CreatorOwns(s: State, creator: UserId, slug: string)
    requires OutcomeOf(s, CreateOrg(creator, slug)).Done?
    ensures IsOwner(Apply(s, CreateOrg(creator, slug)), creator, s.nextOrg)
  {
  }

  lemma OnlyTheCreator(s: State, creator: UserId, slug: string, user: UserId)
    requires Filed(s) && OutcomeOf(s, CreateOrg(creator, slug)).Done?
    requires IsOwner(Apply(s, CreateOrg(creator, slug)), user, s.nextOrg)
    ensures user == creator
  {
    assert (user, s.nextOrg) !in s.members;
  }

  lemma TakenIsGone(site: Site, e: Event, other: UserId, org: OrgId)
    requires Inv(site.store) && org in site.store.orgs && org in Next(site, e).store.orgs
    requires TakesLastActive(site, e, org)
    ensures !IsActiveOwner(Next(site, e), other, org)
  {
    hide Owned, NamesUnique, Filed, Apply, OutcomeOf;
    OldOrg(site.store, org);
    if e.Operation? {
      OwnersAfter(site.store, e.op, other, org);
    }
    if IsActiveOwner(site, other, org) {
      assert (other, org) in site.store.members;
    }
  }

  lemma OldOrg(s: State, org: OrgId)
    requires Inv(s) && org in s.orgs
    ensures org < s.nextOrg
  {
    hide Owned, NamesUnique;
  }

  lemma StillActive(site: Site, e: Event, org: OrgId) returns (owner: UserId)
    requires Inv(site.store) && org in site.store.orgs && org in Next(site, e).store.orgs
    requires HasActiveOwner(site, org) && !TakesLastActive(site, e, org)
    ensures IsActiveOwner(Next(site, e), owner, org)
  {
    hide Owned, NamesUnique, Filed, Apply, OutcomeOf, IsOwner;
    owner := SomeActiveOwner(site, org);
    if e.Operation? {
      OwnersAfter(site.store, e.op, owner, org);
    }
    if !IsActiveOwner(Next(site, e), owner, org) {
      assert !IsOnlyActiveOwner(site, owner, org);
      var key :| key in site.store.members && key.1 == org && IsActiveOwner(site, key.0, org) && key.0 != owner;
      owner := key.0;
      if e.Operation? {
        OwnersAfter(site.store, e.op, owner, org);
      }
    }
  }

  lemma {:induction false} SiteKeepsInv(events: seq<Event>)
    ensures Inv(RunSite(events).store)
    decreases |events|
  {
    hide Inv, Apply;
    if events == [] {
      RunKeepsInv([]);
    } else {
      var n := |events| - 1;
      SiteKeepsInv(events[..n]);
      if events[n].Operation? {
        StepKeepsInv(RunSite(events[..n]).store, events[n].op);
      }
    }
  }

  /** Over all runs in which no event takes the last active owner away, an organisation has one. */
  lemma {:induction false} ActiveOwnerRemains(events: seq<Event>, org: OrgId)
    requires org in RunSite(events).store.orgs
    requires forall i | 0 <= i < |events| :: !TakesLastActive(RunSite(events[..i]), events[i], org)
    ensures HasActiveOwner(RunSite(events), org)
    decreases |events|
  {
    hide Inv, Apply, HasActiveOwner, TakesLastActive;
    var n := |events| - 1;
    SiteKeepsInv(events[..n]);
    forall i | 0 <= i < n
      ensures !TakesLastActive(RunSite(events[..n][..i]), events[..n][i], org)
    {
      assert events[..n][..i] == events[..i];
    }
    if org in RunSite(events[..n]).store.orgs {
      ActiveOwnerRemains(events[..n], org);
    }
    ActiveOwnerKeptIff(RunSite(events[..n]), events[n], org);
  }

  /** The service over its store. */
  class AuthService {
    var orgs: map<OrgId, string>
    var roles: map<RoleId, Role>
    var members: map<(UserId, OrgId), RoleId>
    var invitations: map<string, Invitation>
    var users: map<string, UserId>
    var nextOrg: OrgId
    var nextRole: RoleId

    constructor ()
      ensures Now() == Initial
    {
      orgs, roles, members, invitations, users, nextOrg, nextRole := map[], map[], map[], map[], map[], 0, 0;
    }

    function Now(): State
      reads this
    {
      State(orgs, roles, members, invitations, users, nextOrg, nextRole)
    }

    method CreateOrganization(creator: UserId, slug: string) returns (r: Outcome)
      modifies this
      ensures r == OutcomeOf(old(Now()), CreateOrg(creator, slug))
      ensures Now() == Apply(old(Now()), CreateOrg(creator, slug))
      ensures r.Done? <==> forall org | org in old(orgs) :: old(orgs)[org] != slug
      ensures r.Done? ==>
                && orgs == old(orgs)[old(nextOrg) := slug]
                && members == old(members)[(creator, old(nextOrg)) := old(nextRole)]
                && roles == old(roles)[old(nextRole) := Role(old(nextOrg), "owner")]
                                      [old(nextRole) + 1 := Role(old(nextOrg), "admin")]
                                      [old(nextRole) + 2 := Role(old(nextOrg), "member")]
    {
      if exists org | org in orgs :: orgs[org] == slug {
        return Refused(SlugTaken);
      }
      var org, owner, admin, member := nextOrg, nextRole, nextRole + 1, nextRole + 2;
      nextOrg, nextRole := nextOrg + 1, nextRole + 3;
      orgs := orgs[org := slug];
      roles := roles[owner := Role(org, "owner")];
      roles := roles[admin := Role(org, "admin")];
      roles := roles[member := Role(org, "member")];
      members := members[(creator, org) := owner];
      return Done;
    }

    method CountMembersWithRole(org: OrgId, role: RoleId) returns (n: nat)
      ensures n == |WithRole(Now(), org, role)|
    {
      n := |set key | key in members && key.1 == org && members[key] == role|;
    }

    method UpdateMemberRole(org: OrgId, user: UserId, newRole: RoleId) returns (r: Outcome)
      modifies this`members
      ensures r == OutcomeOf(old(Now()), UpdateRole(org, user, newRole))
      ensures Now() == Apply(old(Now()), UpdateRole(org, user, newRole))
      ensures members == if r.Done? then old(members)[(user, org) := newRole] else old(members)
    {
      if (user, org) !in members {
        return Refused(MembershipNotFound);
      }
      var role := members[(user, org)];
      if role !in roles {
        return Refused(Internal);
      }
      if newRole !in roles {
        return Refused(RoleNotFound);
      }
      if roles[newRole].org != org {
        return Refused(RoleNotFound);
      }
      if roles[role].name == "owner" && roles[newRole].name != "owner" {
        var owners := CountMembersWithRole(org, role);
        if owners <= 1 {
          return Refused(LastOwner);
        }
      }
      members := members[(user, org) := newRole];
      return Done;
    }

    method RemoveMember(org: OrgId, user: UserId) returns (r: Outcome)
      modifies this`members
      ensures r == OutcomeOf(old(Now()), Remove(org, user))
      ensures Now() == Apply(old(Now()), Remove(org, user))
      ensures members == if r.Done? then old(members) - {(user, org)} else old(members)
    {
      if (user, org) !in members {
        return Refused(MembershipNotFound);
      }
      var role := members[(user, org)];
      if role !in roles {
        return Refused(Internal);
      }
      if roles[role].name == "owner" {
        var owners := CountMembersWithRole(org, role);
        if owners <= 1 {
          return Refused(LastOwner);
        }
      }
      members := members - {(user, org)};
      return Done;
    }

    method CreateInvitation(org: OrgId, email: string, role: RoleId, token: string, expiresAt: int)
      returns (r: Outcome)
      modifies this`invitations
      ensures r == OutcomeOf(old(Now()), Invite(org, email, role, token, expiresAt))
      ensures Now() == Apply(old(Now()), Invite(org, email, role, token, expiresAt))
    {
      if role !in roles || roles[role].org != org {
        return Refused(RoleNotFound);
      }
      if org !in orgs {
        return Refused(OrgNotFound);
      }
      if token in invitations {
        return Refused(Internal);
      }
      invitations := invitations[token := Invitation(email, org, role, expiresAt)];
      return Done;
    }

    /** An invitation is used up only when it made someone a member. */
    method AcceptInvitation(token: string, now: int) returns (r: Outcome)
      modifies this`members, this`invitations
      ensures r == OutcomeOf(old(Now()), Accept(token, now))
      ensures Now() == Apply(old(Now()), Accept(token, now))
      ensures !r.Done? ==> Now() == old(Now())
      ensures r == Refused(InvitationNotFound) <==>
              token !in old(invitations) || old(invitations)[token].expiresAt < now
      ensures r.Done? ==> token in old(invitations) &&
                          var i := old(invitations)[token];
                          && i.email in users && (users[i.email], i.org) !in old(members) && now <= i.expiresAt
                          && members == old(members)[(users[i.email], i.org) := i.role]
                          && invitations == old(invitations) - {token}
    {
      if token !in invitations || invitations[token].expiresAt < now {
        return Refused(InvitationNotFound);
      }
      var invitation := invitations[token];
      if invitation.email !in users {
        return PendingSignup;
      }
      var key := (users[invitation.email], invitation.org);
      if key in members {
        return Refused(MembershipExists);
      }
      members := members[key := invitation.role];
      invitations := invitations - {token};
      return Done;
    }
  }
}

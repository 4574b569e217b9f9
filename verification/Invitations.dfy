/** When an invitation makes somebody a member, over all runs of the auth service. */
module Invitations {
  import opened Membership

  /** The step is an invitation under this token that was made. */
  predicate Made(ops: seq<Op>, i: nat, token: string) {
    i < |ops| && ops[i].Invite? && ops[i].token == token && OutcomeOf(Run(ops[..i]), ops[i]).Done?
  }

  /** The step accepts this token, and somebody becomes a member by it. */
  predicate Uses(ops: seq<Op>, j: nat, token: string) {
    j < |ops| && ops[j].Accept? && ops[j].token == token && OutcomeOf(Run(ops[..j]), ops[j]).Done?
  }

  /** The invitation was made by step `i` and since then neither used nor dropped with its organisation. */
  predicate Open(ops: seq<Op>, i: nat, token: string) {
    && Made(ops, i, token)
    && forall j | i < j < |ops| :: !Uses(ops, j, token) && ops[j] != DeleteOrg(ops[i].org)
  }

  function Issued(op: Op): Invitation
    requires op.Invite?
  {
    Invitation(op.email, op.org, op.role, op.expiresAt)
  }

  /** What one step does to the entry under a token. */
  lemma StepInvitation(s: State, op: Op, token: string)
    requires Inv(s)
    ensures var t := Apply(s, op);
            var made := op.Invite? && op.token == token && OutcomeOf(s, op).Done?;
            var used := op.Accept? && op.token == token && OutcomeOf(s, op).Done?;
            && (token in t.invitations <==>
                made || (token in s.invitations && !used && op != DeleteOrg(s.invitations[token].org)))
            && (made ==> token !in s.invitations && t.invitations[token] == Issued(op))
            && (token in s.invitations && token in t.invitations ==> t.invitations[token] == s.invitations[token])
  {
    hide NamesUnique, Owned, WithRole;
    if token in s.invitations {
      var i := s.invitations[token];
      assert RoleIsOf(s, i.role, i.org);
    }
  }

  lemma OpenBefore(ops: seq<Op>, i: nat, token: string)
    requires Open(ops, i, token) && i < |ops| - 1
    ensures Open(ops[..|ops| - 1], i, token)
  {
    var n := |ops| - 1;
    assert ops[..n][..i] == ops[..i];
    forall j | i < j < n
      ensures !Uses(ops[..n], j, token) && ops[..n][j] != DeleteOrg(ops[i].org)
    {
      assert ops[..n][..j] == ops[..j];
      assert !Uses(ops, j, token);
    }
  }

  /** An open invitation is in the store as it was made. */
  lemma {:induction false} OpenIsStored(ops: seq<Op>, i: nat, token: string)
    requires Open(ops, i, token)
    ensures token in Run(ops).invitations && Run(ops).invitations[token] == Issued(ops[i])
    decreases |ops|
  {
    hide Apply, OutcomeOf, Inv;
    var n := |ops| - 1;
    RunKeepsInv(ops[..n]);
    StepInvitation(Run(ops[..n]), ops[n], token);
    if i < n {
      OpenBefore(ops, i, token);
      OpenIsStored(ops[..n], i, token);
      assert !Uses(ops, n, token) && ops[n] != DeleteOrg(ops[i].org);
    }
  }

  /** The last time an invitation was made under this token. */
  function LastMade(ops: seq<Op>, token: string): nat {
    if ops == [] then 0
    else
      var n := |ops| - 1;
      if Made(ops, n, token) then n else LastMade(ops[..n], token)
  }

  /** What is in the store is open. */
  lemma {:induction false} StoredIsOpen(ops: seq<Op>, token: string)
    requires token in Run(ops).invitations
    ensures Open(ops, LastMade(ops, token), token)
    decreases |ops|
  {
    assert ops != [];
    hide Apply, OutcomeOf, Inv;
    var n := |ops| - 1;
    RunKeepsInv(ops[..n]);
    StepInvitation(Run(ops[..n]), ops[n], token);
    if !Made(ops, n, token) {
      StoredIsOpen(ops[..n], token);
      var i := LastMade(ops[..n], token);
      OpenIsStored(ops[..n], i, token);
      OpenStays(ops, i, token);
    }
  }

  lemma OpenStays(ops: seq<Op>, i: nat, token: string)
    requires ops != [] && Open(ops[..|ops| - 1], i, token)
    requires !Uses(ops, |ops| - 1, token) && ops[|ops| - 1] != DeleteOrg(ops[i].org)
    ensures Open(ops, i, token)
  {
    hide Apply, OutcomeOf, Run;
    var n := |ops| - 1;
    assert ops[..n][..i] == ops[..i];
    forall j | i < j < |ops|
      ensures !Uses(ops, j, token) && ops[j] != DeleteOrg(ops[i].org)
    {
      if j < n {
        assert ops[..n][..j] == ops[..j];
        assert !Uses(ops[..n], j, token) && ops[..n][j] == ops[j];
      }
    }
  }

  /**
   What accepting an open invitation does, at any later time and in any run: it is honoured
   up to and including the moment it expires; it joins the user who has signed up with the
   address, if that user is no member yet, with the invited role; it changes nothing else
   and nothing at all in every other case.
   */
  lemma OpenInvitationEnds(ops: seq<Op>, i: nat, token: string, now: int)
    requires Open(ops, i, token)
    ensures var s, op := Run(ops), ops[i];
            var t, ended := Apply(s, Accept(token, now)), OutcomeOf(s, Accept(token, now));
            if op.expiresAt < now then t == s && ended == Refused(InvitationNotFound)
            else if op.email !in s.users then t == s && ended == PendingSignup
            else if (s.users[op.email], op.org) in s.members then t == s && ended == Refused(MembershipExists)
            else
              && ended == Done
              && t == s.(members := s.members[(s.users[op.email], op.org) := op.role],
                         invitations := s.invitations - {token})
  {
    OpenIsStored(ops, i, token);
  }

  /** Somebody joins by a token if and only if an open invitation under it has not expired and awaits that user. */
  lemma JoinsIff(ops: seq<Op>, token: string, now: int)
    ensures Apply(Run(ops), Accept(token, now)) != Run(ops) <==>
            exists i: nat :: Open(ops, i, token) && now <= ops[i].expiresAt && Awaited(Run(ops), ops[i])
  {
    var s := Run(ops);
    if token in s.invitations {
      StoredIsOpen(ops, token);
      OpenInvitationEnds(ops, LastMade(ops, token), token, now);
    }
    forall i: nat | Open(ops, i, token) && now <= ops[i].expiresAt && Awaited(s, ops[i])
      ensures Apply(s, Accept(token, now)) != s
    {
      OpenInvitationEnds(ops, i, token, now);
      assert (s.users[ops[i].email], ops[i].org) in Apply(s, Accept(token, now)).members;
    }
  }

  /** The invited address has signed up and is no member of the organisation. */
  predicate Awaited(s: State, op: Op)
    requires op.Invite?
  {
    op.email in s.users && (s.users[op.email], op.org) !in s.members
  }

  lemma {:induction false} UsedIsGone(ops: seq<Op>, j: nat, token: string)
    requires Uses(ops, j, token) && forall k | j < k < |ops| :: !Made(ops, k, token)
    ensures token !in Run(ops).invitations
    decreases |ops|
  {
    hide Apply, OutcomeOf, Inv;
    var n := |ops| - 1;
    RunKeepsInv(ops[..n]);
    StepInvitation(Run(ops[..n]), ops[n], token);
    if j < n {
      assert ops[..n][..j] == ops[..j];
      forall k | j < k < n
        ensures !Made(ops[..n], k, token)
      {
        assert ops[..n][..k] == ops[..k];
        assert !Made(ops, k, token);
      }
      UsedIsGone(ops[..n], j, token);
      assert !Made(ops, n, token);
    }
  }

  /** A token works once: until it is issued again, accepting it a second time changes nothing. */
  lemma UsedOnce(ops: seq<Op>, j: nat, token: string, now: int)
    requires Uses(ops, j, token) && forall k | j < k < |ops| :: !Made(ops, k, token)
    ensures Apply(Run(ops), Accept(token, now)) == Run(ops)
    ensures OutcomeOf(Run(ops), Accept(token, now)) == Refused(InvitationNotFound)
  {
    UsedIsGone(ops, j, token);
  }

  /** An invitation is made for a role of the organisation, under a token that is not open; nothing else is asked. */
  lemma MadeIff(ops: seq<Op>, op: Op)
    requires op.Invite?
    ensures var s := Run(ops);
            && (OutcomeOf(s, op).Done? <==>
                op.role in s.roles && s.roles[op.role].org == op.org && op.token !in s.invitations)
            && Apply(s, op) ==
               if OutcomeOf(s, op).Done?
               then s.(invitations := s.invitations[op.token := Invitation(op.email, op.org, op.role, op.expiresAt)])
               else s
  {
    hide NamesUnique, Owned, WithRole;
    RunKeepsInv(ops);
  }
}

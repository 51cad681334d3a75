/** Setting up admin accounts from invitations and changing profiles: username allocation,
    uniqueness, and one account per invitation. */
module AdminAccounts {
  import opened Wrappers
  import opened Text

  // ---------------------------------------------------------------- Username suffixes

  /** The base name for 0, base.counter otherwise. */
  function Suffixed(name: string, counter: nat): string {
    if counter == 0 then name else name + "." + Digits(counter)
  }

  lemma SuffixedInjective(name: string, i: nat, j: nat)
    requires Suffixed(name, i) == Suffixed(name, j)
    ensures i == j
  {
    if i != 0 && j != 0 {
      assert Digits(i) == Suffixed(name, i)[|name| + 1..] && Digits(j) == Suffixed(name, j)[|name| + 1..];
      DigitsInjective(i, j);
    }
  }

  function Candidates(name: string, n: nat): set<string> {
    set i: nat | i < n :: Suffixed(name, i)
  }

  lemma {:induction false} CandidateCount(name: string, n: nat)
    ensures |Candidates(name, n)| == n
  {
    if n > 0 {
      CandidateCount(name, n - 1);
      assert Candidates(name, n) == Candidates(name, n - 1) + {Suffixed(name, n - 1)};
      if Suffixed(name, n - 1) in Candidates(name, n - 1) {
        var i: nat :| i < n - 1 && Suffixed(name, i) == Suffixed(name, n - 1);
        SuffixedInjective(name, i, n - 1);
      }
    }
  }

  lemma SubsetSize<T>(s: set<T>, t: set<T>)
    requires s <= t
    ensures |s| <= |t|
  {
    assert t == s + (t - s);
  }

  /** When the name and its first counter - 1 suffixes are all taken there are that many users. */
  lemma TakenCandidatesBound(name: string, counter: nat, names: set<string>)
    requires forall i: nat | i < counter :: Suffixed(name, i) in names
    ensures counter <= |names|
  {
    CandidateCount(name, counter);
    SubsetSize(Candidates(name, counter), names);
  }

  /** The suffix loop: it stops at a counter no larger than the number of names in use, with the
      smallest free candidate. */
  method FreeUsername(names: set<string>, name: string) returns (result: string, ghost counter: nat)
    ensures result == Suffixed(name, counter) && result !in names
    ensures counter <= |names|
    ensures forall i: nat | i < counter :: Suffixed(name, i) in names
  {
    if name !in names {
      return name, 0;
    }
    var c := 1;
    while name + "." + Digits(c) in names
      invariant 1 <= c && forall i: nat | i < c :: Suffixed(name, i) in names
      decreases |names| - c
    {
      TakenCandidatesBound(name, c + 1, names);
      c := c + 1;
    }
    TakenCandidatesBound(name, c, names);
    return name + "." + Digits(c), c;
  }

  // ---------------------------------------------------------------- Accounts

  datatype Status = PENDING | ACCEPTED | EXPIRED

  datatype Invitation = Invitation(token: string, email: string, status: Status, expiresAt: int)

  datatype User = User(username: string, email: string)

  datatype SetupError = InvalidToken | AlreadyUsed | InvitationExpired | EmailTaken | RoleMissing | RoleUpdateFailed

  datatype SetupResult = Created(userId: nat) | Rejected(error: SetupError)

  datatype ProfileResult = Updated | NotFound | UsernameTaken | ProfileEmailTaken

  class AccountService {
    var users: map<nat, User>
    var invitations: map<nat, Invitation>
    /** The invitation each set-up user came from, and the invitations of which some setup broke off after
        saving its user. */
    ghost var createdFrom: map<nat, nat>
    ghost var brokenOff: set<nat>

    ghost predicate Valid()
      reads this
    {
      && (forall i, j | i in users && j in users && i != j ::
            users[i].username != users[j].username && users[i].email != users[j].email)
      && (forall i, j | i in invitations && j in invitations && i != j :: invitations[i].token != invitations[j].token)
      && (forall u | u in createdFrom ::
            && u in users && createdFrom[u] in invitations
            && (createdFrom[u] !in brokenOff ==> invitations[createdFrom[u]].status == ACCEPTED))
      && (forall u, v | u in createdFrom && v in createdFrom && createdFrom[u] == createdFrom[v] ::
            u == v || createdFrom[u] in brokenOff)
    }

    ghost predicate HasUser(invitation: nat)
      reads this
    {
      exists u :: u in createdFrom && createdFrom[u] == invitation
    }

    constructor (users: map<nat, User>, invitations: map<nat, Invitation>)
      requires forall i, j | i in users && j in users && i != j ::
                 users[i].username != users[j].username && users[i].email != users[j].email
      requires forall i, j | i in invitations && j in invitations && i != j ::
                 invitations[i].token != invitations[j].token
      ensures Valid() && this.users == users && this.invitations == invitations
      ensures createdFrom == map[] && brokenOff == {}
    {
      this.users, this.invitations, createdFrom, brokenOff := users, invitations, map[], {};
    }

    function Usernames(): set<string>
      reads this
    {
      set i | i in users :: users[i].username
    }

    predicate EmailInUse(email: string)
      reads this
    {
      exists i :: i in users && users[i].email == email
    }

    /** findByToken: the id of the invitation with this token. */
    function Named(token: string): Option<nat>
      requires Valid()
      reads this
      ensures Named(token).Some? <==> exists i :: i in invitations && invitations[i].token == token
      ensures Named(token).Some? ==> Named(token).value in invitations && invitations[Named(token).value].token == token
    {
      if exists i :: i in invitations && invitations[i].token == token then
        Some(var i :| i in invitations && invitations[i].token == token; i)
      else None
    }

    /** A pending invitation that has expired by now; a setup marks it so. */
    predicate Lapsed(token: string, now: int)
      requires Valid()
      reads this
    {
      var i := Named(token);
      i.Some? && invitations[i.value].status == PENDING && invitations[i.value].expiresAt < now
    }

    predicate Acceptable(token: string, now: int)
      requires Valid()
      reads this
    {
      var i := Named(token);
      && i.Some? && invitations[i.value].status == PENDING && now <= invitations[i.value].expiresAt
      && !EmailInUse(invitations[i.value].email)
    }

    /** The error of a setup that saves nobody; RoleMissing when the invitation itself is fine. */
    function Refusal(token: string, now: int): SetupError
      requires Valid()
      reads this
    {
      var i := Named(token);
      if i.None? then InvalidToken
      else if invitations[i.value].status == ACCEPTED then AlreadyUsed
      else if invitations[i.value].status == EXPIRED || invitations[i.value].expiresAt < now then InvitationExpired
      else if EmailInUse(invitations[i.value].email) then EmailTaken
      else RoleMissing
    }

    /** A further user comes from an invitation that already has one exactly when the invitation is still
        pending and has not expired, nobody holds its email any more, and the role exists (the last being a
        parameter of the setup). That takes a setup of this very invitation that broke off, and a changed
        email of the user it had saved. */
    lemma FurtherUserNeedsBrokenSetup(token: string, now: int, u: nat)
      requires Valid() && u in createdFrom && Named(token) == Some(createdFrom[u])
      ensures var i := createdFrom[u];
              Acceptable(token, now)
              <==>
              && i in brokenOff && invitations[i].status == PENDING && now <= invitations[i].expiresAt
              && (forall v | v in users :: users[v].email != invitations[i].email)
      ensures Acceptable(token, now) ==> users[u].email != invitations[createdFrom[u]].email
    {
    }

    /** setupAdminAccount; roleUpdateFails makes the role count fail after the user has been saved. */
    method SetupAdminAccount(token: string, name: string, now: int, newId: nat, roleFound: bool, roleUpdateFails: bool)
      returns (result: SetupResult)
      requires Valid() && newId !in users
      modifies this
      ensures Valid()
      ensures newId in users <==> old(Acceptable(token, now)) && roleFound
      ensures result == (if newId !in users then Rejected(old(Refusal(token, now)))
                         else if roleUpdateFails then Rejected(RoleUpdateFailed) else Created(newId))
      ensures newId !in users ==>
                && users == old(users) && createdFrom == old(createdFrom) && brokenOff == old(brokenOff)
                && invitations == old(if Lapsed(token, now)
                                      then invitations[Named(token).value :=
                                             invitations[Named(token).value].(status := EXPIRED)]
                                      else invitations)
      ensures newId in users ==>
                var i := old(Named(token)).value;
                && createdFrom == old(createdFrom)[newId := i]
                && users == old(users)[newId := users[newId]]
                && users[newId].email == old(invitations)[i].email
                && (exists c: nat :: c <= |old(Usernames())| && users[newId].username == Suffixed(name, c)
                      && users[newId].username !in old(Usernames())
                      && forall d: nat | d < c :: Suffixed(name, d) in old(Usernames()))
                && (old(HasUser(i)) ==> i in old(brokenOff))
                && (if roleUpdateFails then brokenOff == old(brokenOff) + {i} && invitations == old(invitations)
                    else brokenOff == old(brokenOff)
                         && invitations == old(invitations)[i := old(invitations)[i].(status := ACCEPTED)])
    {
      var found := Named(token);
      if found.None? {
        return Rejected(InvalidToken);
      }
      var i := found.value;
      var invitation := invitations[i];
      if invitation.status == ACCEPTED {
        return Rejected(AlreadyUsed);
      }
      if invitation.status == EXPIRED || invitation.expiresAt < now {
        if invitation.status != EXPIRED {
          invitations := invitations[i := invitation.(status := EXPIRED)];
        }
        return Rejected(InvitationExpired);
      }
      if EmailInUse(invitation.email) {
        return Rejected(EmailTaken);
      }
      if !roleFound {
        return Rejected(RoleMissing);
      }
      var username, counter := FreeUsername(Usernames(), name);
      users := users[newId := User(username, invitation.email)];
      createdFrom := createdFrom[newId := i];
      if roleUpdateFails {
        brokenOff := brokenOff + {i};
        return Rejected(RoleUpdateFailed);
      }
      invitations := invitations[i := invitation.(status := ACCEPTED)];
      return Created(newId);
    }

    /** updateProfile, its username and email part. Nothing is saved unless both pass. */
    method UpdateProfile(id: nat, username: Option<string>, email: Option<string>) returns (result: ProfileResult)
      requires Valid()
      modifies this
      ensures Valid() && createdFrom == old(createdFrom) && invitations == old(invitations)
      ensures brokenOff == old(brokenOff)
      ensures result != Updated ==> users == old(users)
      ensures result == Updated ==>
                id in old(users)
                && users == old(users)[id := User(if username.Some? then username.value else old(users)[id].username,
                                                  if email.Some? then email.value else old(users)[id].email)]
      ensures result == Updated <==>
                && id in old(users)
                && (username.Some? ==> forall j | j in old(users) && j != id :: old(users)[j].username != username.value)
                && (email.Some? ==> forall j | j in old(users) && j != id :: old(users)[j].email != email.value)
    {
      if id !in users {
        return NotFound;
      }
      var user := users[id];
      if username.Some? && username.value != user.username {
        if exists j :: j in users && users[j].username == username.value && j != id {
          return UsernameTaken;
        }
        user := user.(username := username.value);
      }
      if email.Some? && email.value != user.email {
        if exists j :: j in users && users[j].email == email.value && j != id {
          return ProfileEmailTaken;
        }
        user := user.(email := email.value);
      }
      users := users[id := user];
      return Updated;
    }

    /** Resending replaces the token of a pending invitation that has not expired. */
    method ResendInvitation(id: nat, newToken: string, now: int, newExpiry: int) returns (sent: bool)
      requires Valid() && forall i | i in invitations :: invitations[i].token != newToken
      modifies this
      ensures Valid() && users == old(users) && createdFrom == old(createdFrom) && brokenOff == old(brokenOff)
      ensures sent <==> id in old(invitations) && old(invitations)[id].status == PENDING && now <= old(invitations)[id].expiresAt
      ensures invitations == if sent then old(invitations)[id := old(invitations)[id].(token := newToken, expiresAt := newExpiry)]
                             else old(invitations)
    {
      if id !in invitations || invitations[id].status != PENDING || invitations[id].expiresAt < now {
        return false;
      }
      invitations := invitations[id := invitations[id].(token := newToken, expiresAt := newExpiry)];
      return true;
    }
  }

  /** A run where it happens: the first setup breaks off after saving the user, that user changes the
      email, and the same invitation creates a second user. */
  method InterruptedSetupCreatesTwoUsers() returns (s: AccountService)
    ensures fresh(s) && s.Valid() && s.brokenOff == {7}
    ensures 1 in s.createdFrom && 2 in s.createdFrom && s.createdFrom[1] == s.createdFrom[2]
  {
    s := new AccountService(map[], map[7 := Invitation("t", "a@x", PENDING, 100)]);
    assert s.invitations[7].token == "t";
    var r := s.SetupAdminAccount("t", "ada", 0, 1, true, true);
    var p := s.UpdateProfile(1, None, Some("b@x"));
    assert s.Named("t") == Some(7) && s.users == map[1 := User(s.users[1].username, "b@x")];
    r := s.SetupAdminAccount("t", "ada", 0, 2, true, true);
  }
}

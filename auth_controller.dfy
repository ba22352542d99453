/** The session side of `AuthController`: the login and token-validation
    gates, token expiry and cleanup, and the choice of the condominium a
    sindico or suporte user lands on. */
module AuthController {
  import opened Php
  import opened Roles
  import opened UserPermission
  import opened Database
  import opened EnsureCondominiumAccess

  const DAY: int := 86400

  /** The two roles that pick a "last viewed" condominium instead of living in one. */
  predicate Picks(role: string)
  {
    role == SINDICO || role == SUPORTE
  }

  /** `$user->condominiums()->where('is_active', true)`: the active condominiums
      linked to the user through the pivot. */
  function ActiveLinked(userId: int, condominiums: map<int, Condominium>, links: set<(int, int)>): (ids: set<int>)
    ensures forall c :: c in ids <==> (userId, c) in links && c in condominiums && condominiums[c].isActive
  {
    set l | l in links && l.0 == userId && l.1 in condominiums && condominiums[l.1].isActive :: l.1
  }

  /** The tenant check shared by login and token validation: suporte skips it,
      a sindico needs an active linked condominium, every other role needs its
      own `condominium_id` to name an active condominium. */
  predicate TenantReachable(user: User, condominiums: map<int, Condominium>, links: set<(int, int)>)
  {
    if user.role == SUPORTE then true
    else if user.role == SINDICO then exists c :: c in ActiveLinked(user.id, condominiums, links)
    else user.condominiumId.Some? && ActiveCondominium(condominiums, user.condominiumId.value).Some?
  }

  /** The early returns of `login`; 0 lets the login go on. `credentialsOk`
      is the answer of `Auth::attempt`. */
  function LoginGate(credentialsOk: bool, user: User, condominiums: map<int, Condominium>, links: set<(int, int)>): (status: int)
    ensures status == 0 || status == 401 || status == 403
    ensures status == 401 <==> !credentialsOk
    ensures credentialsOk && !user.accountStatus ==> status == 403
    ensures status == 0 <==> credentialsOk && user.accountStatus && TenantReachable(user, condominiums, links)
  {
    if !credentialsOk then 401
    else if !user.accountStatus then 403
    else if !TenantReachable(user, condominiums, links) then 403
    else 0
  }

  /** The early return of `validateToken`; 0 lets it go on. */
  function SessionGate(user: Option<User>, condominiums: map<int, Condominium>, links: set<(int, int)>): (status: int)
    ensures status == 0 || status == 403
    ensures status == 0 <==> user.Some? && user.value.accountStatus && TenantReachable(user.value, condominiums, links)
  {
    if user.None? || !user.value.accountStatus then 403
    else if !TenantReachable(user.value, condominiums, links) then 403
    else 0
  }

  /** A session token stays valid exactly when the same user could log in again. */
  lemma SessionGateAgreesWithLogin(user: User, condominiums: map<int, Condominium>, links: set<(int, int)>)
    ensures SessionGate(Some(user), condominiums, links) == 0 <==> LoginGate(true, user, condominiums, links) == 0
  {
  }

  /** `$request->rememberMe ? now()->addDays(30) : now()->addDay()`. */
  function TokenExpiry(now: int, rememberMe: Scalar): (t: int)
    ensures t > now
    ensures Truthy(rememberMe) ==> t - now == 30 * DAY
    ensures !Truthy(rememberMe) ==> t - now == DAY
  {
    if Truthy(rememberMe) then now + 30 * DAY else now + DAY
  }

  /** A token `cleanTokens` deletes: one of this user's that was never used or
      has expired (a null `expires_at` never compares as past). */
  predicate Stale(t: Token, userId: int, now: int)
  {
    t.ownerId == userId && (t.lastUsedAt.None? || (t.expiresAt.Some? && t.expiresAt.value < now))
  }

  /** The token table after the delete, in its original order. */
  function Kept(tokens: seq<Token>, userId: int, now: int): seq<Token>
  {
    if tokens == [] then []
    else
      var last := tokens[|tokens| - 1];
      Kept(tokens[..|tokens| - 1], userId, now) + (if Stale(last, userId, now) then [] else [last])
  }

  /** The cleanup removes exactly the stale tokens and keeps every other one. */
  lemma {:induction false} KeptExactly(tokens: seq<Token>, userId: int, now: int)
    ensures forall t :: t in Kept(tokens, userId, now) <==> t in tokens && !Stale(t, userId, now)
  {
    if tokens != [] {
      var init := tokens[..|tokens| - 1];
      KeptExactly(init, userId, now);
      assert tokens == init + [tokens[|tokens| - 1]];
    }
  }

  /** Cleaning twice deletes nothing more. */
  lemma {:induction false} KeptIdempotent(tokens: seq<Token>, userId: int, now: int)
    ensures Kept(Kept(tokens, userId, now), userId, now) == Kept(tokens, userId, now)
  {
    if tokens != [] {
      var init := tokens[..|tokens| - 1];
      var last := tokens[|tokens| - 1];
      KeptIdempotent(init, userId, now);
      var k := Kept(init, userId, now);
      assert tokens[..|tokens| - 1] == init;
      if !Stale(last, userId, now) {
        var k' := k + [last];
        assert k'[..|k'| - 1] == k;
        assert k'[|k'| - 1] == last;
        assert Kept(k', userId, now) == Kept(k, userId, now) + [last];
        assert Kept(tokens, userId, now) == k';
      } else {
        assert Kept(tokens, userId, now) == k + [];
        assert k + [] == k;
      }
    }
  }

  /** `cleanTokens`. */
  method CleanTokens(db: Store, userId: int, now: int)
    modifies db`tokens
    ensures db.tokens == Kept(old(db.tokens), userId, now)
  {
    var tokens := db.tokens;
    var kept: seq<Token> := [];
    var i := 0;
    while i < |tokens|
      invariant 0 <= i <= |tokens|
      invariant kept == Kept(tokens[..i], userId, now)
    {
      assert tokens[..i + 1][..i] == tokens[..i];
      if !Stale(tokens[i], userId, now) {
        kept := kept + [tokens[i]];
      }
      i := i + 1;
    }
    assert tokens[..i] == tokens;
    db.tokens := kept;
  }

  /** The `lastViewedCondominiumId` the login response carries. */
  function LastViewedChoice(user: User): (id: Option<int>)
    ensures Picks(user.role) ==> id == user.lastViewedCondominiumId
    ensures !Picks(user.role) ==> id == user.condominiumId
  {
    if Picks(user.role) then user.lastViewedCondominiumId else user.condominiumId
  }

  /** What login does to `last_viewed_condominium_id`. */
  datatype LoginChoice = Keep | Assign(id: int) | NoCondominium

  /** The default condominium of a login. A suporte user with none set gets
      the oldest condominium, and reading the id of a missing one fails the
      request (`NoCondominium`). */
  function LoginDefault(user: User, condominiums: map<int, Condominium>, links: set<(int, int)>): (c: LoginChoice)
    requires TenantReachable(user, condominiums, links)
    ensures !Picks(user.role) || !FalsyId(user.lastViewedCondominiumId) ==> c == Keep
    ensures c == NoCondominium <==>
      Picks(user.role) && FalsyId(user.lastViewedCondominiumId) && user.role == SUPORTE && condominiums == map[]
    // a sindico lands on an active condominium it is linked to, the least such id
    ensures c.Assign? && user.role == SINDICO ==>
      var linked := ActiveLinked(user.id, condominiums, links);
      c.id in linked && forall o :: o in linked ==> c.id <= o
    // suporte lands on the oldest condominium of all, active or not
    ensures c.Assign? && user.role == SUPORTE ==>
      c.id in condominiums && forall o :: o in condominiums ==> c.id <= o
  {
    if !Picks(user.role) || !FalsyId(user.lastViewedCondominiumId) then Keep
    else if user.role == SUPORTE then
      if exists o :: o in condominiums then Assign(Least(condominiums.Keys)) else NoCondominium
    else
      Assign(Least(ActiveLinked(user.id, condominiums, links)))
  }

  /** The row `createToken` adds for a login at `now`. */
  function NewToken(tokens: seq<Token>, userId: int, now: int, rememberMe: Scalar): (t: Token)
    ensures t.ownerId == userId && t.lastUsedAt.None? && t.expiresAt == Some(TokenExpiry(now, rememberMe))
    ensures forall o :: o in tokens ==> o.id != t.id
  {
    Token(FreshId(set o | o in tokens :: o.id), userId, None, Some(TokenExpiry(now, rememberMe)))
  }

  /** `login`, after validation. `userId` is the account `Auth::attempt`
      matched when `credentialsOk`. The status is 200, or the gate's 401/403,
      or 500 when a suporte user with nothing to land on meets an empty
      condominium table (the token and last login are written by then). */
  method Login(db: Store, credentialsOk: bool, userId: int, rememberMe: Scalar, now: int)
    returns (status: int, lastViewed: Option<int>)
    requires db.Valid()
    requires credentialsOk ==> userId in db.users
    modifies db`users, db`tokens
    ensures db.Valid()
    ensures !credentialsOk ==> status == 401
    ensures credentialsOk && LoginGate(true, old(db.users[userId]), db.condominiums, db.links) != 0 ==>
      status == LoginGate(true, old(db.users[userId]), db.condominiums, db.links)
    // a refused login creates no token and changes no row
    ensures status == 401 || status == 403 ==> db.users == old(db.users) && db.tokens == old(db.tokens)
    ensures status == 200 || status == 500 ==>
      var u := old(db.users[userId]);
      var kept := Kept(old(db.tokens), userId, now);
      var choice := LoginDefault(u, db.condominiums, db.links);
      LoginGate(credentialsOk, u, db.condominiums, db.links) == 0 &&
      db.tokens == kept + [NewToken(kept, userId, now, rememberMe)] &&
      (status == 500 <==> choice == NoCondominium) &&
      db.users == old(db.users)[userId := u.(lastLoginAt := Some(now),
        lastViewedCondominiumId := if choice.Assign? then Some(choice.id) else u.lastViewedCondominiumId)] &&
      (status == 200 ==> lastViewed == LastViewedChoice(db.users[userId]))
  {
    lastViewed := None;
    if !credentialsOk {
      return 401, lastViewed;
    }
    var user := db.users[userId];
    var gate := LoginGate(true, user, db.condominiums, db.links);
    if gate != 0 {
      return gate, lastViewed;
    }
    CleanTokens(db, userId, now);
    db.tokens := db.tokens + [NewToken(db.tokens, userId, now, rememberMe)];
    user := user.(lastLoginAt := Some(now));
    db.users := db.users[userId := user];
    var choice := LoginDefault(user, db.condominiums, db.links);
    if choice == NoCondominium {
      return 500, lastViewed;
    }
    if choice.Assign? {
      user := user.(lastViewedCondominiumId := Some(choice.id));
      db.users := db.users[userId := user];
    }
    return 200, LastViewedChoice(user);
  }

  /** The `last_viewed_condominium_id` that `assignDefaultCondominiumIfMissing`
      leaves behind (it is called for suporte and sindico users only). */
  function DefaultLastViewed(user: User, header: Option<string>, condominiums: map<int, Condominium>, links: set<(int, int)>): (id: Option<int>)
    requires Picks(user.role)
    // a value already set is never replaced
    ensures !FalsyId(user.lastViewedCondominiumId) ==> id == user.lastViewedCondominiumId
    // a new value always names an existing condominium
    ensures id != user.lastViewedCondominiumId ==> id.Some? && id.value in condominiums
    // suporte: the header wins when it names a condominium, active or not ...
    ensures (FalsyId(user.lastViewedCondominiumId) && user.role == SUPORTE &&
             HeaderPresent(header) && IntCast(header.value) in condominiums) ==>
      id == Some(IntCast(header.value))
    // ... otherwise the first condominium, when there is one
    ensures (FalsyId(user.lastViewedCondominiumId) && user.role == SUPORTE &&
             !(HeaderPresent(header) && IntCast(header.value) in condominiums)) ==>
      if exists o :: o in condominiums then
        id.Some? && id.value in condominiums && forall o :: o in condominiums ==> id.value <= o
      else id == user.lastViewedCondominiumId
    // sindico: the first active linked condominium, when there is one
    ensures FalsyId(user.lastViewedCondominiumId) && user.role == SINDICO ==>
      var linked := ActiveLinked(user.id, condominiums, links);
      if exists o :: o in linked then
        id.Some? && id.value in linked && forall o :: o in linked ==> id.value <= o
      else id == user.lastViewedCondominiumId
  {
    if !FalsyId(user.lastViewedCondominiumId) then user.lastViewedCondominiumId
    else if user.role == SUPORTE then
      if HeaderPresent(header) && IntCast(header.value) in condominiums then Some(IntCast(header.value))
      else if exists o :: o in condominiums then Some(Least(condominiums.Keys))
      else user.lastViewedCondominiumId
    else
      var linked := ActiveLinked(user.id, condominiums, links);
      if exists o :: o in linked then Some(Least(linked)) else user.lastViewedCondominiumId
  }

  /** Assigning a default twice assigns nothing new. */
  lemma DefaultLastViewedIdempotent(user: User, header: Option<string>, condominiums: map<int, Condominium>, links: set<(int, int)>)
    requires Picks(user.role)
    ensures var once := user.(lastViewedCondominiumId := DefaultLastViewed(user, header, condominiums, links));
      DefaultLastViewed(once, header, condominiums, links) == once.lastViewedCondominiumId
  {
    var id := DefaultLastViewed(user, header, condominiums, links);
    if id != user.lastViewedCondominiumId {
      if FalsyId(id) {
        assert id.value == 0 && 0 in condominiums;
      }
    }
  }

  /** `validateToken`: 403 for a missing or inactive user or one whose tenant
      is unreachable; otherwise suporte and sindico users get a default
      condominium assigned and returned, other roles get null. */
  method ValidateToken(db: Store, userId: Option<int>, header: Option<string>)
    returns (status: int, lastViewed: Option<int>)
    requires db.Valid()
    requires userId.Some? ==> userId.value in db.users
    modifies db`users
    ensures db.Valid()
    ensures var user := if userId.Some? then Some(old(db.users[userId.value])) else None;
      (status == 200 <==> SessionGate(user, db.condominiums, db.links) == 0) &&
      (status != 200 ==> status == 403)
    ensures status != 200 || !Picks(old(db.users[userId.value]).role) ==>
      db.users == old(db.users) && lastViewed == None
    ensures status == 200 && Picks(old(db.users[userId.value]).role) ==>
      var u := old(db.users[userId.value]);
      lastViewed == DefaultLastViewed(u, header, db.condominiums, db.links) &&
      db.users == old(db.users)[userId.value := u.(lastViewedCondominiumId := lastViewed)]
  {
    lastViewed := None;
    var user := if userId.Some? then Some(db.users[userId.value]) else None;
    if SessionGate(user, db.condominiums, db.links) != 0 {
      return 403, lastViewed;
    }
    var u := user.value;
    if Picks(u.role) {
      lastViewed := DefaultLastViewed(u, header, db.condominiums, db.links);
      assert u.id == userId.value;
      if lastViewed != u.lastViewedCondominiumId {
        db.users := db.users[u.id := u.(lastViewedCondominiumId := lastViewed)];
      } else {
        assert u.(lastViewedCondominiumId := lastViewed) == u;
        assert db.users[u.id := u] == db.users;
      }
    }
    return 200, lastViewed;
  }

  /** `updateLastViewedCondominium`: 422 for an empty id; the foreign key on
      the column refuses an id that names no condominium (a 500, nothing
      written); otherwise the id is stored. Membership is not checked. */
  method UpdateLastViewedCondominium(db: Store, userId: int, condominiumId: Option<int>) returns (status: int)
    requires db.Valid() && userId in db.users
    modifies db`users
    ensures db.Valid()
    ensures FalsyId(condominiumId) ==> status == 422
    ensures !FalsyId(condominiumId) && condominiumId.value !in db.condominiums ==> status == 500
    ensures status != 200 ==> db.users == old(db.users)
    ensures status == 200 <==> !FalsyId(condominiumId) && condominiumId.value in db.condominiums
    ensures status == 200 ==>
      db.users == old(db.users)[userId := old(db.users[userId]).(lastViewedCondominiumId := condominiumId)]
  {
    if FalsyId(condominiumId) {
      return 422;
    }
    if condominiumId.value !in db.condominiums {
      return 500;
    }
    db.users := db.users[userId := db.users[userId].(lastViewedCondominiumId := condominiumId)];
    return 200;
  }
}

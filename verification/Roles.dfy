/**
  Roles and who may give them: the role lattice (internal/domain/user.go), the bootstrap of the master
  admin (cmd/api/main.go), and the three ways a role changes afterwards: registration, an administrator's
  update and a payment.  Any repository call may fail.  Of a player the model keeps e-mail and role.
 */
module Roles {
  import opened Wrappers
  import opened Trimming
  import opened GoText

  type Role = string

  const MASTER_ADMIN: Role := "master_admin"
  const ADMIN: Role := "admin"
  const SYS_OP: Role := "sysop"
  const MODERATOR: Role := "moderator"
  const SUBSCRIBER: Role := "subscriber"
  const REGISTERED: Role := "registered"
  const GUEST: Role := "guest"

  const PRIORITY: map<Role, int> :=
    map[GUEST := 1, REGISTERED := 2, SUBSCRIBER := 3, MODERATOR := 4, SYS_OP := 5, ADMIN := 6, MASTER_ADMIN := 7]

  const ALIASES: map<Role, Role> := map["member" := REGISTERED, "systop" := SYS_OP]

  function NormalizeRole(role: Role): Role {
    if role in ALIASES then ALIASES[role] else role
  }

  predicate IsValidRole(role: Role) {
    NormalizeRole(role) in PRIORITY
  }

  predicate IsRegisteredUser(role: Role) {
    NormalizeRole(role) != GUEST && IsValidRole(NormalizeRole(role))
  }

  predicate CanActAs(current: Role, required: Role) {
    && IsValidRole(current) && IsValidRole(required)
    && PRIORITY[NormalizeRole(current)] >= PRIORITY[NormalizeRole(required)]
  }

  predicate CanAssignRole(assigner: Role, target: Role) {
    var actor, wanted := NormalizeRole(assigner), NormalizeRole(target);
    && IsValidRole(actor) && IsValidRole(wanted)
    && (if wanted == MASTER_ADMIN then false
        else if wanted == ADMIN then actor == MASTER_ADMIN
        else if wanted == SYS_OP then actor == MASTER_ADMIN || actor == ADMIN
        else if wanted == MODERATOR then actor == MASTER_ADMIN || actor == ADMIN || actor == SYS_OP
        else if wanted == SUBSCRIBER || wanted == REGISTERED then
          actor == MASTER_ADMIN || actor == ADMIN || actor == SYS_OP || actor == MODERATOR
        else false)
  }

  lemma NormalizeTwice(role: Role)
    ensures NormalizeRole(NormalizeRole(role)) == NormalizeRole(role)
    ensures IsValidRole(NormalizeRole(role)) == IsValidRole(role)
  {
  }

  /** The valid roles, one by one. */
  lemma ValidRoles(role: Role)
    requires IsValidRole(role)
    ensures var r := NormalizeRole(role);
            || r == GUEST || r == REGISTERED || r == SUBSCRIBER || r == MODERATOR || r == SYS_OP || r == ADMIN
                 || r == MASTER_ADMIN
  {
  }

  /**
    The switch over roles says: a moderator or higher may give any role below the own one, except that
    nobody makes a guest or a master admin.
   */
  lemma AssignsExactlyLower(assigner: Role, target: Role)
    ensures CanAssignRole(assigner, target) <==>
              && CanActAs(assigner, MODERATOR) && CanActAs(assigner, target) && !CanActAs(target, assigner)
              && CanActAs(target, REGISTERED)
  {
    NormalizeTwice(assigner);
    NormalizeTwice(target);
    if IsValidRole(assigner) && IsValidRole(target) {
      ValidRoles(assigner);
      ValidRoles(target);
    }
  }

  // ---- Players ----

  datatype Player = Player(email: string, role: Role)
  type Players = map<string, Player>

  predicate IsMaster(p: Player) {
    NormalizeRole(p.role) == MASTER_ADMIN
  }

  function MasterAdmins(players: Players): set<string> {
    set id | id in players && IsMaster(players[id])
  }

  function WithRole(players: Players, id: string, role: Role): Players {
    if id in players then players[id := players[id].(role := role)] else players
  }

  datatype Error = Broken | NotFound | Invalid | Forbidden | NotRegistered
  datatype Result<+T> = Ok(value: T) | Err(error: Error)

  class UserRepository {
    var players: Players
    /** How many calls have failed. */
    var faults: nat

    constructor ()
      ensures players == map[] && faults == 0
    {
      players, faults := map[], 0;
    }

    method Create(id: string, p: Player) returns (r: Result<Player>)
      modifies this
      ensures faults >= old(faults)
      ensures faults == old(faults) ==> r == Ok(p) && players == old(players)[id := p]
      ensures faults != old(faults) ==> r == Err(Broken) && players == old(players)
    {
      if * {
        faults := faults + 1;
        return Err(Broken);
      }
      players := players[id := p];
      return Ok(p);
    }

    /** Some player with the address: the query has no order. */
    method ByEmail(email: string) returns (r: Result<string>)
      modifies this`faults
      ensures faults >= old(faults)
      ensures r.Ok? ==> r.value in players && players[r.value].email == email
      ensures r.Err? && faults == old(faults) ==> forall id :: id in players ==> players[id].email != email
    {
      if * {
        faults := faults + 1;
        return Err(Broken);
      }
      if id :| id in players && players[id].email == email {
        return Ok(id);
      }
      return Err(NotFound);
    }

    method ById(id: string) returns (r: Result<Player>)
      modifies this`faults
      ensures faults >= old(faults)
      ensures faults == old(faults) ==> r == if id in players then Ok(players[id]) else Err(NotFound)
      ensures faults != old(faults) ==> r == Err(Broken)
    {
      if * {
        faults := faults + 1;
        return Err(Broken);
      }
      return if id in players then Ok(players[id]) else Err(NotFound);
    }

    method UpdateRole(id: string, role: Role) returns (r: Result<bool>)
      modifies this
      ensures faults >= old(faults)
      ensures faults == old(faults) ==> players == WithRole(old(players), id, role) && r.Ok? == (id in old(players))
      ensures faults != old(faults) ==> players == old(players) && r.Err?
    {
      if * {
        faults := faults + 1;
        return Err(Broken);
      }
      if id !in players {
        return Err(NotFound);
      }
      players := players[id := players[id].(role := role)];
      return Ok(true);
    }

    method List() returns (r: Result<seq<Listed>>)
      modifies this`faults
      ensures faults >= old(faults)
      ensures r.Ok? ==> Ids(r.value) == players.Keys
      ensures r.Err? ==> faults > old(faults)
      ensures r.Ok? ==>
                forall i :: 0 <= i < |r.value| ==>
                  r.value[i].id in players && r.value[i].player == players[r.value[i].id]
    {
      if * {
        faults := faults + 1;
        return Err(Broken);
      }
      var users: seq<Listed>, left := [], players.Keys;
      while left != {}
        invariant Ids(users) + left == players.Keys && faults == old(faults)
        invariant forall i :: 0 <= i < |users| ==> users[i].id in players && users[i].player == players[users[i].id]
        decreases left
      {
        var id :| id in left;
        OneMoreId(users, Listed(id, players[id]));
        users, left := users + [Listed(id, players[id])], left - {id};
      }
      return Ok(users);
    }
  }

  datatype Listed = Listed(id: string, player: Player)

  function Ids(users: seq<Listed>): set<string> {
    set u | u in users :: u.id
  }

  lemma OneMoreId(users: seq<Listed>, u: Listed)
    ensures Ids(users + [u]) == Ids(users) + {u.id}
  {
    forall id ensures id in Ids(users + [u]) <==> id in Ids(users) + {u.id} {
      assert u in users + [u];
      if id in Ids(users) {
        var v :| v in users && v.id == id;
        assert v in users + [u];
      }
    }
  }

  // ---- Registration ----

  /** Lower-casing, and whether mail, hashing and tokens are in working order. */
  datatype Services = Services(lower: string -> string, mailReady: bool, hashes: bool, issuesTokens: bool)

  function NormalEmail(s: Services, email: string): string {
    s.lower(TrimSpace(email))
  }

  predicate CanRegister(s: Services, email: string, username: string, password: string, role: Role) {
    && s.mailReady && s.hashes
    && NormalEmail(s, email) != "" && TrimSpace(username) != "" && password != ""
    && IsValidRole(if role == "" then REGISTERED else role)
  }

  function NewPlayer(s: Services, email: string, role: Role): Player {
    Player(NormalEmail(s, email), NormalizeRole(if role == "" then REGISTERED else role))
  }

  /** `id` is the new player's generated id.  A token that cannot be issued does not undo the creation. */
  method Register(repo: UserRepository, s: Services, id: string, email: string, username: string, password: string,
                  role: Role)
    returns (r: Result<string>)
    modifies repo
    ensures repo.faults >= old(repo.faults)
    ensures repo.faults == old(repo.faults) && CanRegister(s, email, username, password, role) ==>
              repo.players == old(repo.players)[id := NewPlayer(s, email, role)] && r.Ok? == s.issuesTokens
    ensures repo.faults != old(repo.faults) || !CanRegister(s, email, username, password, role) ==>
              repo.players == old(repo.players) && r.Err?
  {
    if !s.mailReady {
      return Err(Invalid);
    }
    var normEmail, normUser := s.lower(TrimSpace(email)), TrimSpace(username);
    if normEmail == "" || normUser == "" || password == "" {
      return Err(Invalid);
    }
    var wanted := NormalizeRole(if role == "" then REGISTERED else role);
    NormalizeTwice(if role == "" then REGISTERED else role);
    if !IsValidRole(wanted) || !s.hashes {
      return Err(Invalid);
    }
    var created := repo.Create(id, Player(normEmail, wanted));
    if created.Err? {
      return Err(created.error);
    }
    if !s.issuesTokens {
      return Err(Broken);
    }
    return Ok(id);
  }

  // ---- Bootstrap ----

  datatype Config = Config(username: string, email: string, password: string)

  predicate Configured(s: Services, cfg: Config) {
    TrimSpace(cfg.username) != "" && NormalEmail(s, cfg.email) != "" && TrimSpace(cfg.password) != ""
  }

  /** There is an account with the address, or one can be made: then only a failing call stops a bootstrap. */
  predicate Bootable(players: Players, s: Services, cfg: Config) {
    var email := NormalEmail(s, cfg.email);
    || (exists id :: id in players && players[id].email == email)
    || (CanRegister(s, email, TrimSpace(cfg.username), cfg.password, MASTER_ADMIN) && s.issuesTokens
         && NormalEmail(s, email) == email)
  }

  /** The master admins in `seen` other than the configured one step down to admin. */
  function Demoted(players: Players, admin: string, seen: set<string>): Players {
    map id | id in players ::
      if id in seen && id != admin && IsMaster(players[id]) then players[id].(role := ADMIN) else players[id]
  }

  /** The players after a bootstrap that has dealt with those in `seen`. */
  function Bootstrapped(players: Players, admin: string, seen: set<string>): Players {
    Demoted(WithRole(players, admin, MASTER_ADMIN), admin, seen)
  }

  /**
    The bootstrap.  `base` is the players it found, with the configured one created where there was none;
    `seen` is how far it got.
   */
  method EnsureMasterAdmin(repo: UserRepository, s: Services, newId: string, cfg: Config)
    returns (r: Result<string>, ghost base: Players, ghost seen: set<string>)
    modifies repo
    ensures repo.faults >= old(repo.faults)
    ensures TrimSpace(cfg.username) == "" || s.lower(TrimSpace(cfg.email)) == "" || TrimSpace(cfg.password) == "" ==>
              r == Ok("") && repo.players == old(repo.players)
    ensures base == old(repo.players) ||
            base == old(repo.players)[newId := Player(NormalEmail(s, NormalEmail(s, cfg.email)), MASTER_ADMIN)]
    ensures Configured(s, cfg) && r.Ok? ==>
              && r.value in base && base[r.value].email == NormalEmail(s, cfg.email)
              && seen == base.Keys && repo.players == Bootstrapped(base, r.value, seen)
    ensures r.Err? && repo.players != base ==>
              exists admin :: admin in base && base[admin].email == NormalEmail(s, cfg.email) &&
                              repo.players == Bootstrapped(base, admin, seen)
    ensures repo.faults == old(repo.faults) && Bootable(old(repo.players), s, cfg) ==> r.Ok?
  {
    base, seen := repo.players, {};
    var username, email := TrimSpace(cfg.username), s.lower(TrimSpace(cfg.email));
    if username == "" || email == "" || TrimSpace(cfg.password) == "" {
      return Ok(""), base, seen;
    }
    var found := FindOrCreate(repo, s, newId, email, username, cfg.password);
    base := repo.players;
    if found.Err? {
      return Err(found.error), base, seen;
    }
    var admin := found.value;
    var current := repo.players[admin];
    if NormalizeRole(current.role) != MASTER_ADMIN {
      var promoted := repo.UpdateRole(admin, MASTER_ADMIN);
      if promoted.Err? {
        return Err(promoted.error), base, seen;
      }
    }
    if IsMaster(base[admin]) {
      AlreadyMaster(base, admin);
    }
    var demoted;
    demoted, seen := DemoteOthers(repo, admin);
    return if demoted.Ok? then Ok(admin) else Err(demoted.error), base, seen;
  }

  /** The account with the address; where there is none it is registered and looked up again. */
  method FindOrCreate(repo: UserRepository, s: Services, newId: string, email: string, username: string,
                      password: string)
    returns (r: Result<string>)
    modifies repo
    ensures repo.faults >= old(repo.faults)
    ensures repo.players == old(repo.players) ||
            repo.players == old(repo.players)[newId := Player(NormalEmail(s, email), MASTER_ADMIN)]
    ensures r.Ok? ==> r.value in repo.players && repo.players[r.value].email == email
    ensures repo.faults == old(repo.faults)
            && ((exists id :: id in old(repo.players) && old(repo.players)[id].email == email)
                || (CanRegister(s, email, username, password, MASTER_ADMIN) && s.issuesTokens
                     && NormalEmail(s, email) == email))
            ==> r.Ok?
  {
    r := repo.ByEmail(email);
    if r.Ok? {
      return r;
    }
    var registered := Register(repo, s, newId, email, username, password, MASTER_ADMIN);
    if registered.Err? {
      return Err(registered.error);
    }
    assert newId in repo.players && repo.players[newId].email == NormalEmail(s, email);
    r := repo.ByEmail(email);
  }

  lemma AlreadyMaster(players: Players, admin: string)
    requires admin in players && IsMaster(players[admin])
    ensures WithRole(players, admin, MASTER_ADMIN) == players
  {
  }

  method DemoteOthers(repo: UserRepository, admin: string) returns (r: Result<bool>, ghost seen: set<string>)
    modifies repo
    ensures repo.faults >= old(repo.faults)
    ensures repo.players == Demoted(old(repo.players), admin, seen)
    ensures r.Ok? ==> seen == old(repo.players).Keys
    ensures r.Err? ==> repo.faults > old(repo.faults)
  {
    seen := {};
    assert Demoted(repo.players, admin, {}) == repo.players;
    var listed := repo.List();
    if listed.Err? {
      return Err(listed.error), seen;
    }
    var users := listed.value;
    for i := 0 to |users|
      invariant seen == Ids(users[..i]) && repo.faults >= old(repo.faults)
      invariant repo.players == Demoted(old(repo.players), admin, seen)
    {
      var user := users[i];
      SeenMore(users, i);
      OneMoreDemoted(old(repo.players), admin, seen, user.id);
      if user.id != admin && NormalizeRole(user.player.role) == MASTER_ADMIN {
        var demoted := repo.UpdateRole(user.id, ADMIN);
        if demoted.Err? {
          return Err(demoted.error), seen;
        }
      }
      seen := seen + {user.id};
    }
    assert users[..|users|] == users;
    return Ok(true), seen;
  }

  lemma SeenMore(users: seq<Listed>, i: nat)
    requires i < |users|
    ensures Ids(users[..i + 1]) == Ids(users[..i]) + {users[i].id}
  {
    assert users[..i + 1] == users[..i] + [users[i]];
    OneMoreId(users[..i], users[i]);
  }

  lemma OneMoreDemoted(players: Players, admin: string, seen: set<string>, id: string)
    requires id in players
    ensures Demoted(players, admin, seen + {id}) ==
            if id != admin && IsMaster(players[id]) then WithRole(Demoted(players, admin, seen), id, ADMIN)
            else Demoted(players, admin, seen)
  {
  }

  /**
    A bootstrap that gets to its end leaves the configured account as the only master admin; every other
    account keeps address and role, unless it was a master admin, and is now an admin.
   */
  lemma OneMasterAdmin(base: Players, admin: string)
    requires admin in base
    ensures var after := Bootstrapped(base, admin, base.Keys);
            && MasterAdmins(after) == {admin} && after.Keys == base.Keys
            && (forall id :: id in base ==> after[id].email == base[id].email)
            && (forall id :: id in base && id != admin ==>
                  NormalizeRole(after[id].role) == if IsMaster(base[id]) then ADMIN else NormalizeRole(base[id].role))
  {
    var after := Bootstrapped(base, admin, base.Keys);
    assert after[admin].role == MASTER_ADMIN;
  }

  /**
    From the promotion on there is a master admin at every step of a bootstrap, and no new one but the
    configured; one that ends before the promotion leaves the players as it found them.
   */
  lemma NeverWithout(base: Players, admin: string, seen: set<string>)
    requires admin in base
    ensures {admin} <= MasterAdmins(Bootstrapped(base, admin, seen)) <= MasterAdmins(base) + {admin}
  {
    assert Bootstrapped(base, admin, seen)[admin].role == MASTER_ADMIN;
  }

  /** No two accounts have the same address. */
  predicate DistinctAddresses(players: Players) {
    forall a, b :: a in players && b in players && players[a].email == players[b].email ==> a == b
  }

  /**
    The next start changes nothing exactly when it finds the same account; where addresses are distinct,
    as the table of users has them, there is no other with the configured one.
   */
  lemma BootstrapTwice(base: Players, admin: string, found: string)
    requires admin in base && found in base
    ensures var once := Bootstrapped(base, admin, base.Keys);
            && (Bootstrapped(once, found, once.Keys) == once <==> found == admin)
            && (DistinctAddresses(base) && once[found].email == once[admin].email ==> found == admin)
  {
    var once := Bootstrapped(base, admin, base.Keys);
    OneMasterAdmin(base, admin);
    OneMasterAdmin(once, found);
    if found == admin {
      AlreadyMaster(once, admin);
      assert forall id :: id in once && id != admin ==> id !in MasterAdmins(once);
    } else {
      assert admin in MasterAdmins(once) && admin !in MasterAdmins(Bootstrapped(once, found, once.Keys));
    }
  }

  // ---- Roles after the bootstrap ----

  function ParseRole(lower: string -> string, raw: string): Option<Role> {
    var r := NormalizeRole(lower(TrimSpace(raw)));
    if r in PRIORITY then Some(r) else None
  }

  /** Anybody may ask to be registered, and nobody for more. */
  function RequestedRole(lower: string -> string, raw: string): Option<Role> {
    if raw == "" then Some(REGISTERED)
    else if ParseRole(lower, raw) == Some(REGISTERED) then Some(REGISTERED)
    else None
  }

  datatype Event =
    | Registration(services: Services, newId: string, email: string, username: string, password: string, role: string)
    | RoleUpdate(lower: string -> string, claims: Option<Role>, id: string, body: Option<string>)
    | Payment(metadata: map<string, string>)

  /** The role an administrator's request gives, if it may. */
  function Granted(lower: string -> string, claims: Option<Role>, body: Option<string>): Option<Role> {
    if claims.None? || body.None? then None
    else
      match ParseRole(lower, body.value)
      case None => None
      case Some(target) => if CanAssignRole(claims.value, target) then Some(target) else None
  }

  predicate NeedsRegistered(target: Role) {
    target == ADMIN || target == SYS_OP || target == MODERATOR || target == SUBSCRIBER
  }

  function UpdatedRole(players: Players, id: string, granted: Option<Role>): Players {
    if granted.None? || id !in players then players
    else if NeedsRegistered(granted.value) && !IsRegisteredUser(players[id].role) then players
    else WithRole(players, id, granted.value)
  }

  function PlayerIdOf(metadata: map<string, string>): string {
    if "playerId" in metadata && metadata["playerId"] != "" then metadata["playerId"]
    else if "playerID" in metadata && metadata["playerID"] != "" then metadata["playerID"]
    else if "player_id" in metadata then metadata["player_id"]
    else ""
  }

  function Paid(players: Players, id: string): Players {
    if id == "" || id !in players then players
    else if !IsRegisteredUser(players[id].role) || NormalizeRole(players[id].role) == SUBSCRIBER then players
    else WithRole(players, id, SUBSCRIBER)
  }

  predicate Registers(e: Event)
    requires e.Registration?
  {
    RequestedRole(e.services.lower, e.role).Some?
      && CanRegister(e.services, e.email, e.username, e.password, REGISTERED)
  }

  function Step(players: Players, e: Event): Players {
    match e
    case Registration(s, newId, email, _, _, _) =>
      if Registers(e) then players[newId := NewPlayer(s, email, REGISTERED)] else players
    case RoleUpdate(lower, claims, id, body) => UpdatedRole(players, id, Granted(lower, claims, body))
    case Payment(metadata) => Paid(players, PlayerIdOf(metadata))
  }

  method HandleRegister(repo: UserRepository, e: Event) returns (r: Result<string>)
    requires e.Registration?
    modifies repo
    ensures repo.faults >= old(repo.faults)
    ensures repo.faults == old(repo.faults) ==> repo.players == Step(old(repo.players), e)
    ensures repo.faults != old(repo.faults) ==> repo.players == old(repo.players)
  {
    var role := REGISTERED;
    if e.role != "" {
      var parsed := ParseRole(e.services.lower, e.role);
      if parsed.None? || parsed.value != REGISTERED {
        return Err(Invalid);
      }
      role := parsed.value;
    }
    r := Register(repo, e.services, e.newId, e.email, e.username, e.password, role);
  }

  method HandleUpdateRole(repo: UserRepository, e: Event) returns (r: Result<bool>)
    requires e.RoleUpdate?
    modifies repo
    ensures repo.faults >= old(repo.faults)
    ensures repo.faults == old(repo.faults) ==> repo.players == Step(old(repo.players), e)
    ensures repo.faults != old(repo.faults) ==> repo.players == old(repo.players)
    ensures r.Ok? ==>
              && Granted(e.lower, e.claims, e.body).Some?
              && repo.players == WithRole(old(repo.players), e.id, Granted(e.lower, e.claims, e.body).value)
  {
    if e.claims.None? {
      return Err(Forbidden);
    }
    if e.body.None? {
      return Err(Invalid);
    }
    var target := ParseRole(e.lower, e.body.value);
    if target.None? {
      return Err(Invalid);
    }
    if !CanAssignRole(e.claims.value, target.value) {
      return Err(Forbidden);
    }
    var user := repo.ById(e.id);
    if user.Err? {
      return Err(NotFound);
    }
    if NeedsRegistered(target.value) && !IsRegisteredUser(user.value.role) {
      return Err(NotRegistered);
    }
    r := repo.UpdateRole(e.id, target.value);
  }

  method PromoteSubscriberIfEligible(repo: UserRepository, metadata: map<string, string>)
    modifies repo
    ensures repo.faults >= old(repo.faults)
    ensures repo.faults == old(repo.faults) ==> repo.players == Step(old(repo.players), Payment(metadata))
    ensures repo.faults != old(repo.faults) ==> repo.players == old(repo.players)
  {
    var playerId := PlayerIdOf(metadata);
    if playerId == "" {
      return;
    }
    var player := repo.ById(playerId);
    if player.Err? {
      return;
    }
    var current := NormalizeRole(player.value.role);
    NormalizeTwice(player.value.role);
    if !IsRegisteredUser(current) || current == SUBSCRIBER {
      return;
    }
    var _ := repo.UpdateRole(playerId, SUBSCRIBER);
  }

  /** The events that take the role from a master admin. */
  predicate Unseats(e: Event, id: string) {
    match e
    case Registration(_, newId, _, _, _, _) => newId == id && Registers(e)
    case RoleUpdate(lower, claims, target, body) => target == id && Granted(lower, claims, body).Some?
    case Payment(metadata) => id != "" && PlayerIdOf(metadata) == id
  }

  lemma GrantedIsLower(lower: string -> string, claims: Option<Role>, body: Option<string>)
    requires Granted(lower, claims, body).Some?
    ensures var target := Granted(lower, claims, body).value;
            && NormalizeRole(target) != MASTER_ADMIN && CanActAs(claims.value, MODERATOR)
            && CanActAs(claims.value, target) && !CanActAs(target, claims.value)
  {
    AssignsExactlyLower(claims.value, Granted(lower, claims, body).value);
  }

  lemma StepMasters(players: Players, e: Event, id: string)
    ensures id in MasterAdmins(Step(players, e)) <==> id in MasterAdmins(players) && !Unseats(e, id)
  {
    match e
    case Registration(s, newId, email, _, _, _) =>
    case RoleUpdate(lower, claims, target, body) =>
      if Granted(lower, claims, body).Some? {
        GrantedIsLower(lower, claims, body);
      }
    case Payment(metadata) =>
  }

  function Run(players: Players, events: seq<Event>): Players {
    if events == [] then players else Step(Run(players, events[..|events| - 1]), events[|events| - 1])
  }

  /**
    After any run the master admins are those of its start whom no event unseated: nobody is added, and
    an account keeps the role exactly if no registration took its id, no granted update named it and no
    payment was made for it.
   */
  lemma {:induction false} MastersAfterExactly(players: Players, events: seq<Event>, id: string)
    ensures id in MasterAdmins(Run(players, events)) <==>
              id in MasterAdmins(players) && forall i :: 0 <= i < |events| ==> !Unseats(events[i], id)
  {
    if events != [] {
      var before, e := events[..|events| - 1], events[|events| - 1];
      MastersAfterExactly(players, before, id);
      StepMasters(Run(players, before), e, id);
      NobodyUnseats(events, id);
    }
  }

  lemma NobodyUnseats(events: seq<Event>, id: string)
    requires events != []
    ensures var before, e := events[..|events| - 1], events[|events| - 1];
            (forall i :: 0 <= i < |events| ==> !Unseats(events[i], id)) <==>
              !Unseats(e, id) && forall i :: 0 <= i < |before| ==> !Unseats(before[i], id)
  {
    var before := events[..|events| - 1];
    forall i | 0 <= i < |before| ensures before[i] == events[i] {
    }
    if forall i :: 0 <= i < |events| ==> !Unseats(events[i], id) {
      assert !Unseats(events[|events| - 1], id);
    }
  }

  /** From a bootstrap on, only the configured account can be a master admin. */
  lemma AtMostConfigured(base: Players, admin: string, events: seq<Event>)
    requires admin in base
    ensures MasterAdmins(Run(Bootstrapped(base, admin, base.Keys), events)) <= {admin}
  {
    var start := Bootstrapped(base, admin, base.Keys);
    OneMasterAdmin(base, admin);
    forall id | id in MasterAdmins(Run(start, events)) ensures id == admin {
      MastersAfterExactly(start, events, id);
    }
  }

  /** A moderator may take the master admin's role: nothing looks at the role the target has. */
  lemma ModeratorUnseats(lower: string -> string, players: Players, id: string)
    requires lower("registered") == "registered" && id in MasterAdmins(players)
    ensures id !in MasterAdmins(Step(players, RoleUpdate(lower, Some(MODERATOR), id, Some("registered"))))
  {
    TrimmedExactly("registered", GoText.IsSpace);
    var e := RoleUpdate(lower, Some(MODERATOR), id, Some("registered"));
    assert Unseats(e, id);
    StepMasters(players, e, id);
  }

  /** So does a payment made for the master admin. */
  lemma PaymentUnseats(players: Players, id: string, metadata: map<string, string>)
    requires id != "" && id in MasterAdmins(players)
    ensures id in MasterAdmins(Step(players, Payment(metadata))) <==> PlayerIdOf(metadata) != id
  {
    StepMasters(players, Payment(metadata), id);
  }

  /** A payment never lowers a player's role exactly when the player was below moderator. */
  lemma PaymentRaisesExactly(players: Players, id: string)
    requires id != "" && id in players && IsValidRole(players[id].role)
    ensures CanActAs(Paid(players, id)[id].role, players[id].role) <==> !CanActAs(players[id].role, MODERATOR)
  {
    ValidRoles(players[id].role);
  }
}

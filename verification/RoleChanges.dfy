/**
  The roles by name (internal/domain/user.go) and what exactly a registration, an administrator's update and a
  payment do to the players (auth_handler.go, admin_handler.go, payment_service.go).
 */
module RoleChanges {
  import opened Wrappers
  import opened Trimming
  import opened GoText
  import opened Roles

  // ---- Names ----

  /** The seven roles, each with the rights of those before it. */
  const RANKS: seq<string> := ["guest", "registered", "subscriber", "moderator", "sysop", "admin", "master_admin"]

  /** The place of a role among them; two roles have a second name. */
  function RankOf(name: string): (rank: Option<nat>)
    ensures rank.Some? ==> rank.value < 7
  {
    if name == "guest" then Some(0)
    else if name == "registered" || name == "member" then Some(1)
    else if name == "subscriber" then Some(2)
    else if name == "moderator" then Some(3)
    else if name == "sysop" || name == "systop" then Some(4)
    else if name == "admin" then Some(5)
    else if name == "master_admin" then Some(6)
    else None
  }

  /** What the tables of priorities and aliases say of every text. */
  lemma RolesByRank(name: string)
    ensures IsValidRole(name) <==> RankOf(name).Some?
    ensures RankOf(name).Some? ==>
              && NormalizeRole(name) == RANKS[RankOf(name).value]
              && PRIORITY[NormalizeRole(name)] == RankOf(name).value + 1
    ensures IsRegisteredUser(name) <==> RankOf(name).Some? && RankOf(name).value >= 1
  {
  }

  /** A role may act as another exactly when both are roles and it does not rank lower. */
  lemma ActsByRank(a: string, b: string)
    ensures CanActAs(a, b) <==> RankOf(a).Some? && RankOf(b).Some? && RankOf(a).value >= RankOf(b).value
  {
    RolesByRank(a);
    RolesByRank(b);
  }

  /** It may be given by any role from moderator up that ranks higher, from registered up. */
  lemma AssignsByRank(a: string, b: string)
    ensures CanAssignRole(a, b) <==>
              && RankOf(a).Some? && RankOf(b).Some?
              && RankOf(a).value >= 3 && RankOf(a).value > RankOf(b).value && RankOf(b).value >= 1
  {
    AssignsExactlyLower(a, b);
    ActsByRank(a, "moderator");
    ActsByRank(a, b);
    ActsByRank(b, a);
    ActsByRank(b, "registered");
  }

  // ---- Changes ----

  /** No other player changes, and nobody is added or removed. */
  predicate OnlyChanges(players: Players, after: Players, id: string) {
    && after.Keys == players.Keys
    && forall other :: other in players && other != id ==> after[other] == players[other]
  }

  /** The rank an update asks for: it trims the name and takes it in lower case. */
  function WantedRank(lower: string -> string, body: Option<string>): Option<nat> {
    if body.None? then None else RankOf(lower(TrimSpace(body.value)))
  }

  /** The update is let through: by rank, and above registered only for a player who is no guest. */
  predicate MayUpdate(players: Players, lower: string -> string, claims: Option<string>, id: string,
                      body: Option<string>) {
    var wanted := WantedRank(lower, body);
    && claims.Some? && RankOf(claims.value).Some? && wanted.Some? && id in players
    && RankOf(claims.value).value >= 3 && RankOf(claims.value).value > wanted.value >= 1
    && (wanted.value > 1 ==> RankOf(players[id].role).Some? && RankOf(players[id].role).value >= 1)
  }

  /** An update gives the player it names the role it asks for exactly when it may; nothing else changes. */
  lemma UpdateExactly(players: Players, lower: string -> string, claims: Option<string>, id: string,
                      body: Option<string>)
    ensures var after := Step(players, RoleUpdate(lower, claims, id, body));
            && OnlyChanges(players, after, id)
            && (id in players ==>
                  after[id] == if MayUpdate(players, lower, claims, id, body) then
                                 players[id].(role := RANKS[WantedRank(lower, body).value])
                               else players[id])
  {
    if claims.Some? && body.Some? {
      var name := lower(TrimSpace(body.value));
      RolesByRank(name);
      assert ParseRole(lower, body.value) ==
               if RankOf(name).Some? then Some(RANKS[RankOf(name).value]) else None;
      if RankOf(name).Some? {
        var target := RANKS[RankOf(name).value];
        RankOfRank(RankOf(name).value);
        AssignsByRank(claims.value, target);
        if id in players {
          RolesByRank(players[id].role);
          assert NeedsRegistered(target) <==> 2 <= RankOf(name).value <= 5;
        }
      }
    }
  }

  lemma RankOfRank(n: nat)
    requires n < 7
    ensures RankOf(RANKS[n]) == Some(n)
  {
  }

  /** The player a payment names: under the first of three keys that has a name. */
  function PayerOf(metadata: map<string, string>): string {
    var first := if "playerId" in metadata then metadata["playerId"] else "";
    var second := if "playerID" in metadata then metadata["playerID"] else "";
    var third := if "player_id" in metadata then metadata["player_id"] else "";
    if first != "" then first else if second != "" then second else third
  }

  /** A payment makes the player it names a subscriber, whatever the role, unless it is a guest's or none. */
  lemma PaymentExactly(players: Players, metadata: map<string, string>)
    ensures var after, id := Step(players, Payment(metadata)), PayerOf(metadata);
            && OnlyChanges(players, after, id) && (id == "" ==> after == players)
            && (id != "" && id in players ==>
                  var rank := RankOf(players[id].role);
                  && after[id].email == players[id].email
                  && (if rank.Some? && rank.value >= 1 then RankOf(after[id].role) == Some(2)
                      else after[id].role == players[id].role))
  {
    var id := PayerOf(metadata);
    assert PlayerIdOf(metadata) == id;
    if id in players {
      RolesByRank(players[id].role);
    }
  }

  /** Who is registered, with the role registered and the address trimmed and in lower case. */
  lemma RegistrationExactly(players: Players, s: Services, newId: string, email: string, username: string,
                            password: string, role: string)
    ensures var after := Step(players, Registration(s, newId, email, username, password, role));
            after ==
              if && s.mailReady && s.hashes
                 && s.lower(TrimSpace(email)) != "" && TrimSpace(username) != "" && password != ""
                 && (role == "" || RankOf(s.lower(TrimSpace(role))) == Some(1))
              then players[newId := Player(s.lower(TrimSpace(email)), "registered")] else players
  {
    if role != "" {
      var name := s.lower(TrimSpace(role));
      RolesByRank(name);
      assert ParseRole(s.lower, role) == Some(REGISTERED) <==> RankOf(name) == Some(1);
    }
  }
}

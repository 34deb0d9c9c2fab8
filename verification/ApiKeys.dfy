/** `auth/service.py`: the key table refines a map from each player to the token issued
    last. The hash (PBKDF2 with the pepper) is a parameter, a new token is an input. */
module ApiKeys {
  import opened Wrappers
  import Collections
  import S = MarketState
  import R = MarketRepo
  import Reachable
  import M = MarketService

  type Hash = string -> string

  datatype Principal = Principal(player: string, isAdmin: bool)

  /** The first twelve characters of a token, or all of a shorter one. */
  function Prefix(raw: string): (p: string)
    ensures p <= raw && |p| <= 12 && (|p| < 12 ==> p == raw)
  {
    if |raw| > 12 then raw[..12] else raw
  }

  /** An active row of the player carries the token's hash. */
  ghost predicate Authenticates(t: S.Tables, hash: Hash, raw: string, player: string) {
    exists id :: id in t.keys && t.keys[id].keyHash == hash(raw) && !t.keys[id].revoked && t.keys[id].player == player
  }

  function Admin(t: S.Tables, owner: string, player: string): bool {
    (owner != "" && player == owner) || (player in t.isAdmin && t.isAdmin[player])
  }

  class AuthService {
    const repo: R.Repo
    const ownerCharacter: string
    const hash: Hash

    constructor (repo: R.Repo, ownerCharacter: string, hash: Hash)
      ensures this.repo == repo && this.ownerCharacter == ownerCharacter && this.hash == hash
    {
      this.repo, this.ownerCharacter, this.hash := repo, ownerCharacter, hash;
    }

    /** `generate_key`, given the token drawn. Fails only where its hash is stored already. */
    method GenerateKey(player: string, raw: string) returns (r: Result<string, M.Error>)
      modifies repo`isAdmin, repo`keys, repo`nextId
      ensures repo.isAdmin == if player in old(repo.isAdmin) then old(repo.isAdmin)
                              else old(repo.isAdmin)[player := false]
      ensures r == Ok(raw) <==> forall id | id in old(repo.keys) :: old(repo.keys)[id].keyHash != hash(raw)
      ensures r.Ok? ==> old(repo.nextId) in repo.keys &&
                        repo.keys[old(repo.nextId)] == S.ApiKey(player, hash(raw), Prefix(raw), false)
      ensures forall id | id in old(repo.keys) && !(r.Ok? && id == old(repo.nextId)) :: id in repo.keys &&
                repo.keys[id] == old(repo.keys)[id].(revoked :=
                  old(repo.keys)[id].revoked || old(repo.keys)[id].player == player)
      ensures repo.Db() == S.NewKey(old(repo.Db()), player, hash(raw), Prefix(raw))
      ensures r == if S.HashTaken(old(repo.Db()), hash(raw)) then Err(M.IntegrityError) else Ok(raw)
    {
      if player !in repo.isAdmin {
        repo.Register(player);
      }
      ghost var known := repo.Db();
      var _ := repo.RevokeAllForPlayer(player);
      SameHashes(known, S.RevokeAll(known, player), hash(raw));
      var ok := repo.CreateKey(player, hash(raw), Prefix(raw));
      return if ok then Ok(raw) else Err(M.IntegrityError);
    }

    method RevokeKeys(player: string) returns (count: nat)
      modifies repo`keys
      ensures repo.Db() == S.RevokeAll(old(repo.Db()), player)
      ensures count == |S.ActiveKeys(old(repo.Db()), player)|
      ensures
        var keys := old(repo.keys);
        count == |set id | id in keys && keys[id].player == player && !keys[id].revoked|
    {
      count := repo.RevokeAllForPlayer(player);
    }

    method Authenticate(raw: string) returns (r: Option<Principal>)
      requires S.KeysValid(repo.Db())
      ensures r.Some? <==> exists p :: Authenticates(repo.Db(), hash, raw, p)
      ensures r.Some? ==> Authenticates(repo.Db(), hash, raw, r.value.player)
                          && r.value.isAdmin == Admin(repo.Db(), ownerCharacter, r.value.player)
      ensures r.Some? ==> exists id :: id in repo.keys && repo.keys[id].keyHash == hash(raw) &&
                            !repo.keys[id].revoked && repo.keys[id].player == r.value.player
      ensures r.None? ==> forall id | id in repo.keys && repo.keys[id].keyHash == hash(raw) :: repo.keys[id].revoked
    {
      var key := repo.GetByHash(hash(raw));
      if key.None? {
        return None;
      }
      var isAdmin := IsAdminPlayer(key.value.player);
      r := Some(Principal(key.value.player, isAdmin));
      assert Authenticates(repo.Db(), hash, raw, r.value.player);
    }

    method IsAdminPlayer(player: string) returns (isAdmin: bool)
      ensures isAdmin == Admin(repo.Db(), ownerCharacter, player)
      ensures isAdmin <==> (ownerCharacter != "" && player == ownerCharacter) ||
                           (player in repo.isAdmin && repo.isAdmin[player])
    {
      if ownerCharacter != "" && player == ownerCharacter {
        return true;
      }
      isAdmin := player in repo.isAdmin && repo.isAdmin[player];
    }
  }

  lemma SameHashes(t: S.Tables, u: S.Tables, keyHash: string)
    requires t.keys.Keys == u.keys.Keys && forall id | id in t.keys :: t.keys[id].keyHash == u.keys[id].keyHash
    ensures S.HashTaken(t, keyHash) == S.HashTaken(u, keyHash)
  {}

  // ---- the refinement ----

  /** A step of the whole system; the two key operations name the token. */
  datatype Step =
    | Generate(player: string, token: string)
    | Revoke(player: string)
    | Other(event: S.Event)

  function EventOf(s: Step, hash: Hash): S.Event {
    match s
    case Generate(p, token) => S.GenerateKey(p, hash(token), Prefix(token))
    case Revoke(p) => S.RevokeKeys(p)
    case Other(e) => e
  }

  function Events(steps: seq<Step>, hash: Hash): (es: seq<S.Event>)
    ensures |es| == |steps|
  {
    if steps == [] then [] else Events(steps[..|steps| - 1], hash) + [EventOf(steps[|steps| - 1], hash)]
  }

  /** The specification: each player's current token. */
  function Latest(steps: seq<Step>): map<string, string> {
    if steps == [] then map[] else
      var before := Latest(steps[..|steps| - 1]);
      match steps[|steps| - 1]
      case Generate(p, token) => before[p := token]
      case Revoke(p) => before - {p}
      case Other(e) => if e.Unregister? then before - {e.player} else before
  }

  function IssuedHashes(steps: seq<Step>, hash: Hash): set<string> {
    if steps == [] then {} else
      var before := IssuedHashes(steps[..|steps| - 1], hash);
      if steps[|steps| - 1].Generate? then before + {hash(steps[|steps| - 1].token)} else before
  }

  /** Tokens are drawn once; the other steps are not key operations. */
  ghost predicate Fresh(steps: seq<Step>) {
    && (forall i, j | 0 <= i < j < |steps| && steps[i].Generate? && steps[j].Generate? ::
          steps[i].token != steps[j].token)
    && (forall i | 0 <= i < |steps| && steps[i].Other? :: !steps[i].event.GenerateKey? && !steps[i].event.RevokeKeys?)
  }

  ghost predicate CollisionFree(hash: Hash) {
    forall x, y :: hash(x) == hash(y) ==> x == y
  }

  ghost predicate HasActive(keys: map<nat, S.ApiKey>, player: string) {
    exists id :: id in keys && !keys[id].revoked && keys[id].player == player
  }

  /** The active rows are the current tokens of their players; no hash is unaccounted for. */
  ghost predicate Refines(keys: map<nat, S.ApiKey>, latest: map<string, string>, issued: set<string>, hash: Hash) {
    && (forall id | id in keys :: keys[id].keyHash in issued)
    && (forall id | id in keys && !keys[id].revoked ::
          keys[id].player in latest && keys[id].keyHash == hash(latest[keys[id].player]))
    && (forall p | p in latest :: HasActive(keys, p))
  }

  lemma {:induction false} NotIssuedYet(steps: seq<Step>, hash: Hash, token: string)
    requires CollisionFree(hash)
    requires forall i | 0 <= i < |steps| && steps[i].Generate? :: steps[i].token != token
    ensures hash(token) !in IssuedHashes(steps, hash)
  {
    if steps != [] {
      NotIssuedYet(steps[..|steps| - 1], hash, token);
    }
  }

  lemma InsertRefines(keys: map<nat, S.ApiKey>, latest: map<string, string>, issued: set<string>, hash: Hash,
                      id: nat, p: string, token: string)
    requires Refines(keys, latest, issued, hash) && id !in keys && p !in latest
    ensures Refines(keys[id := S.ApiKey(p, hash(token), Prefix(token), false)], latest[p := token],
                    issued + {hash(token)}, hash)
  {
    var more := keys[id := S.ApiKey(p, hash(token), Prefix(token), false)];
    assert HasActive(more, p) by {
      assert !more[id].revoked && more[id].player == p;
    }
    forall q | q in latest
      ensures HasActive(more, q)
    {
      var i :| i in keys && !keys[i].revoked && keys[i].player == q;
      assert more[i] == keys[i];
    }
  }

  /** Rows of the player revoked or deleted, the others as before. */
  lemma DropRefines(keys: map<nat, S.ApiKey>, left: map<nat, S.ApiKey>, latest: map<string, string>,
        issued: set<string>,
                    hash: Hash, p: string)
    requires Refines(keys, latest, issued, hash)
    requires forall id | id in left ::
               id in keys && left[id].keyHash == keys[id].keyHash && left[id].player == keys[id].player
    requires forall id | id in left && left[id].player == p :: left[id].revoked
    requires forall id | id in keys && keys[id].player != p :: id in left && left[id] == keys[id]
    ensures Refines(left, latest - {p}, issued, hash)
  {
    forall q | q in latest && q != p
      ensures HasActive(left, q)
    {
      var id :| id in keys && !keys[id].revoked && keys[id].player == q;
      assert left[id] == keys[id];
    }
  }

  lemma GenerateRefines(t: S.Tables, latest: map<string, string>, issued: set<string>, hash: Hash, p: string,
        token: string)
    requires Refines(t.keys, latest, issued, hash) && S.IdsBelow(t) && hash(token) !in issued
    ensures Refines(S.NewKey(t, p, hash(token), Prefix(token)).keys, latest[p := token], issued + {hash(token)}, hash)
  {
    hide *;
    var t1 := RevokedFirst(t, p);
    GeneratedKeys(t, p, token, hash);
    Revoked(t, p);
    DropRefines(t.keys, t1.keys, latest, issued, hash, p);
    NotStored(t1, latest - {p}, issued, hash, token);
    InsertRefines(t1.keys, latest - {p}, issued, hash, t1.nextId, p, token);
    assert (latest - {p})[p := token] == latest[p := token];
  }

  /** The tables `generate_key` stores the new key in. */
  function RevokedFirst(t: S.Tables, p: string): S.Tables {
    S.RevokeAll(if p in t.isAdmin then t else S.AddUser(t, p), p)
  }

  lemma GeneratedKeys(t: S.Tables, p: string, token: string, hash: Hash)
    ensures
      var t1, key := RevokedFirst(t, p), S.ApiKey(p, hash(token), Prefix(token), false);
      !S.HashTaken(t1, hash(token)) ==> S.NewKey(t, p, hash(token), Prefix(token)).keys == t1.keys[t1.nextId := key]
  {
    hide S.RevokeAll, S.HashTaken;
  }

  lemma Revoked(t: S.Tables, p: string)
    ensures
      var left := RevokedFirst(t, p).keys;
      && (forall id | id in left ::
            id in t.keys && left[id].keyHash == t.keys[id].keyHash && left[id].player == t.keys[id].player)
      && (forall id | id in left && left[id].player == p :: left[id].revoked)
      && (forall id | id in t.keys && t.keys[id].player != p :: id in left && left[id] == t.keys[id])
    ensures S.IdsBelow(t) ==> RevokedFirst(t, p).nextId !in RevokedFirst(t, p).keys
  {}

  lemma NotStored(t: S.Tables, latest: map<string, string>, issued: set<string>, hash: Hash, token: string)
    requires Refines(t.keys, latest, issued, hash) && hash(token) !in issued
    ensures !S.HashTaken(t, hash(token))
  {}

  lemma {:induction false} PollItemsKeepsKeys(w: S.World, due: seq<int>, now: int, fetches: seq<S.Fetch>)
    requires |fetches| == |due| && forall i | 0 <= i < |due| :: due[i] in w.db.watch
    ensures S.PollItems(w, due, now, fetches).w.db.keys == w.db.keys
    ensures S.PollItems(w, due, now, fetches).w.db.isAdmin == w.db.isAdmin
  {
    if due != [] {
      var n := |due| - 1;
      PollItemsKeepsKeys(w, due[..n], now, fetches[..n]);
      hide S.PollItem, S.Interrupted;
    }
  }

  lemma OtherStepsKeepKeys(w: S.World, e: S.Event)
    requires S.Enabled(w, e) && !e.GenerateKey? && !e.RevokeKeys? && !e.Unregister?
    ensures S.Apply(w, e).db.keys == w.db.keys
  {
    hide S.PollItems, S.PollItem, S.Cleaned, S.UpsertAll, S.Unflag, S.SubscribeTo, S.UpsertWatch, S.DropWatches,
      S.DropSubscriptions, S.LogAction, S.ByTime, S.Alerts, S.Tell, Collections.First;
    if e.Poll? {
      M.BatchIsWatched(S.Cleaned(w.db, e.now, e.settings),
        S.PollCutoff(e.now, e.settings), e.settings.batchSize, e.due);
      PollItemsKeepsKeys(w.(db := S.Cleaned(w.db, e.now, e.settings)), e.due, e.now, e.fetches);
    }
  }

  lemma StepRefines(w: S.World, step: Step, latest: map<string, string>, issued: set<string>, hash: Hash)
    requires S.Valid(w.db) && S.Enabled(w, EventOf(step, hash)) && Refines(w.db.keys, latest, issued, hash)
    requires step.Generate? ==> hash(step.token) !in issued
    requires step.Other? ==> !step.event.GenerateKey? && !step.event.RevokeKeys?
    ensures
      var keys := S.Apply(w, EventOf(step, hash)).db.keys;
      match step
      case Generate(p, token) => Refines(keys, latest[p := token], issued + {hash(token)}, hash)
      case Revoke(p) => Refines(keys, latest - {p}, issued, hash)
      case Other(e) => Refines(keys, if e.Unregister? then latest - {e.player} else latest, issued, hash)
  {
    hide Refines, S.SubsValid, S.HistoryValid, S.PendingValid, S.KeysValid, S.IdsBelow, S.Enabled, S.NewKey;
    match step
    case Generate(p, token) => GenerateRefines(w.db, latest, issued, hash, p, token);
    case Revoke(p) => DropRefines(w.db.keys, S.RevokeAll(w.db, p).keys, latest, issued, hash, p);
    case Other(e) =>
      if e.Unregister? {
        UnregisterRefines(w, e.player, latest, issued, hash);
      } else {
        OtherStepsKeepKeys(w, e);
      }
  }

  lemma UnregisterRefines(w: S.World, p: string, latest: map<string, string>, issued: set<string>, hash: Hash)
    requires S.KeysValid(w.db) && Refines(w.db.keys, latest, issued, hash)
    ensures Refines(S.Apply(w, S.Unregister(p)).db.keys, latest - {p}, issued, hash)
  {
    hide Refines, CollisionFree, HasActive;
    hide S.PollItems, S.UpsertAll, S.Unflag, S.NewKey, S.SubscribeTo, S.Cleaned, S.RevokeAll, S.LogAction;
    DropRefines(w.db.keys, S.Apply(w, S.Unregister(p)).db.keys, latest, issued, hash, p);
  }

  lemma {:induction false} RunRefines(w: S.World, steps: seq<Step>, hash: Hash)
    requires S.Valid(w.db) && w.db.keys == map[] && CollisionFree(hash) && Fresh(steps)
    requires S.IsRun(w, Events(steps, hash))
    ensures Refines(S.After(w, Events(steps, hash)).db.keys, Latest(steps), IssuedHashes(steps, hash), hash)
    ensures S.Valid(S.After(w, Events(steps, hash)).db)
    decreases |steps|
  {
    hide Refines, S.Valid, S.Apply, S.Enabled, EventOf;
    Reachable.RunsStayValid(w, Events(steps, hash));
    if steps == [] {
      NoKeys(hash);
    } else {
      var n := |steps| - 1;
      assert Events(steps, hash)[..n] == Events(steps[..n], hash);
      RunRefines(w, steps[..n], hash);
      if steps[n].Generate? {
        NotIssuedYet(steps[..n], hash, steps[n].token);
      }
      StepRefines(S.After(w, Events(steps[..n], hash)), steps[n], Latest(steps[..n]),
        IssuedHashes(steps[..n], hash), hash);
    }
  }

  lemma NoKeys(hash: Hash)
    ensures Refines(map[], map[], {}, hash)
  {}

  /** Over any run from a table without keys: a token authenticates a player exactly when
      it is the token last generated for the player and not revoked or cascaded away since. */
  lemma AuthenticateExact(w: S.World, steps: seq<Step>, hash: Hash, raw: string, player: string)
    requires S.Valid(w.db) && w.db.keys == map[] && CollisionFree(hash) && Fresh(steps)
    requires S.IsRun(w, Events(steps, hash))
    ensures Authenticates(S.After(w, Events(steps, hash)).db, hash, raw, player) <==>
            player in Latest(steps) && Latest(steps)[player] == raw
  {
    hide S.IsRun, S.After, S.Valid, Events, Latest, Fresh;
    RunRefines(w, steps, hash);
    var keys := S.After(w, Events(steps, hash)).db.keys;
    if player in Latest(steps) && Latest(steps)[player] == raw {
      assert HasActive(keys, player);
    }
  }

  /** No player ever has two active keys, and no token names two players. */
  lemma OneActiveKey(w: S.World, es: seq<S.Event>, hash: Hash, raw: string, p: string, q: string)
    requires S.Valid(w.db) && S.IsRun(w, es)
    ensures |S.ActiveKeys(S.After(w, es).db, p)| <= 1
    ensures Authenticates(S.After(w, es).db, hash, raw, p) && Authenticates(S.After(w, es).db, hash, raw, q) ==> p == q
  {
    Reachable.RunsStayValid(w, es);
    hide S.IsRun, S.After;
    var t := S.After(w, es).db;
    var active := S.ActiveKeys(t, p);
    if |active| > 1 {
      TwoOf(active);
    }
  }

  lemma TwoOf<T>(s: set<T>)
    requires |s| > 1
    ensures exists x, y :: x in s && y in s && x != y
  {
    var x :| x in s;
    assert |s - {x}| == |s| - 1;
    var y :| y in s - {x};
  }
}

/**
 * BanService with its calls run one at a time, against a database, a Redis and a
 * clock that moves between any two steps. Redis may forget any cache entry at any
 * moment, which covers TTL expiry and eviction; it never loses the version key,
 * and no Redis call fails.
 */
module BanService {
  import opened Common
  import opened BanRecords

  datatype Config = Config(
    userNegativeTtl: nat, userPermanentTtl: nat,
    ipNegativeTtl: nat, ipPermanentTtl: nat, verdictTtl: nat)

  /** A write to other targets leaves every entry about `x` as backed as it was. */
  lemma UpsertKeepsEntry(rows: seq<Ban>, target: Target, until: Option<Instant>, at: Instant, x: Target, e: Entry,
          t: Instant)
    requires OneOpenPerTarget(rows) && x != target && Backed(rows, Exactly(x), e, t)
    ensures Backed(Upserted(rows, target, until, at), Exactly(x), e, t)
  {
    UpsertDecidesItsTarget(rows, target, until, at);
    if e.banned {
      var i :| 0 <= i < |rows| && Hits(Exactly(x), rows[i].target) && rows[i].Unlifted()
            && e.expiresAt == UntilSecs(rows[i].until);
      assert Upserted(rows, target, until, at)[i] == rows[i];
    }
  }

  lemma LiftKeepsEntry(rows: seq<Ban>, target: Target, at: Instant, x: Target, e: Entry, t: Instant)
    requires OneOpenPerTarget(rows) && x != target && Backed(rows, Exactly(x), e, t)
    ensures Backed(Lifted(rows, target, at), Exactly(x), e, t)
  {
    LiftFreesItsTarget(rows, target, at);
    if e.banned {
      var i :| 0 <= i < |rows| && Hits(Exactly(x), rows[i].target) && rows[i].Unlifted()
            && e.expiresAt == UntilSecs(rows[i].until);
      assert Lifted(rows, target, at)[i] == rows[i];
    }
  }

  /** How far a write has come: nothing outstanding, the cache entry of its target
      still to be replaced, or only the version still to be bumped. */
  datatype Pending = Settled | Replacing(target: Target) | Bumping

  ghost predicate UserEntriesBacked(rows: seq<Ban>, cache: map<UserId, Entry>, pending: Pending, t: Instant) {
    forall u | u in cache && pending != Replacing(User(u)) :: Backed(rows, Exactly(User(u)), cache[u], t)
  }

  ghost predicate IpEntriesBacked(rows: seq<Ban>, cache: map<Ip, Entry>, pending: Pending, t: Instant) {
    forall ip | ip in cache && cache[ip].banned && pending != Replacing(Addr(ip)) ::
          Backed(rows, Exactly(Addr(ip)), cache[ip], t)
  }

  ghost predicate VerdictsBacked(rows: seq<Ban>, verdicts: map<(nat, Ip), Entry>, version: nat, pending: Pending,
          t: Instant)
  {
    && (forall k | k in verdicts :: k.0 <= version)
    && (pending.Settled? || (pending.Replacing? && pending.target.User?) ==>
          forall k | k in verdicts && k.0 == version :: Backed(rows, Covering(k.1), verdicts[k], t))
  }

  class Service {
    const config: Config
    var now: Instant
    var userBans: seq<Ban>
    var ipBans: seq<Ban>
    var userCache: map<UserId, Entry>
    var ipCache: map<Ip, Entry>
    var verdicts: map<(nat, Ip), Entry>
    var version: nat

    /** Every entry a check may serve is backed, except, in the middle of a write to
        `pending`, those that the rest of the write is about to replace. */
    ghost predicate Sound(pending: Pending)
      reads this
    {
      && OneOpenPerTarget(userBans)
      && OneOpenPerTarget(ipBans)
      && UserEntriesBacked(userBans, userCache, pending, now)
      && IpEntriesBacked(ipBans, ipCache, pending, now)
      && VerdictsBacked(ipBans, verdicts, version, pending, now)
    }

    ghost predicate Valid()
      reads this
    {
      Sound(Settled)
    }

    constructor (config: Config, start: Instant)
      ensures Valid() && this.config == config && now == start
      ensures userBans == [] && ipBans == []
    {
      this.config := config;
      now := start;
      userBans, ipBans := [], [];
      userCache, ipCache, verdicts := map[], map[], map[];
      version := 0;
    }

    /** The world between two steps of a call: time passes, Redis forgets. */
    method Elapse(ghost pending: Pending)
      requires Sound(pending)
      modifies this`now, this`userCache, this`ipCache, this`verdicts
      ensures Sound(pending) && old(now) <= now
    {
      var passed: nat :| true;
      var users: set<UserId> :| true;
      var ips: set<Ip> :| true;
      var keys: set<(nat, Ip)> :| true;
      now := now + passed;
      userCache := userCache - users;
      ipCache := ipCache - ips;
      verdicts := verdicts - keys;
    }

    // ------------------------------------------------------------ user bans

    method ServeUserEntry(user: UserId) returns (hit: Option<bool>, ghost at: Instant)
      requires Valid()
      modifies this`now, this`userCache, this`ipCache, this`verdicts
      ensures Valid() && old(now) <= at <= now
      ensures hit.Some? ==> (hit.value <==> UserBanned(userBans, user, at))
    {
      Elapse(Settled);
      at := now;
      if user !in userCache {
        return None, at;
      }
      var entry := userCache[user];
      ghost var read := now;
      Elapse(Settled);
      at := now;
      if !EntryExpired(entry, now) {
        ServedEntryIsExact(userBans, Exactly(User(user)), entry, read, now);
        return Some(entry.banned), at;
      }
      userCache := userCache - {user};
      return None, at;
    }

    method QueryUser(user: UserId) returns (banned: bool, ghost at: Instant)
      requires Valid()
      modifies this`now, this`userCache, this`ipCache, this`verdicts
      ensures Valid() && old(now) <= at <= now
      ensures banned <==> UserBanned(userBans, user, at)
    {
      Elapse(Settled);
      var asked := now;
      at := asked;
      Elapse(Settled);
      var entry := QueryEntry(userBans, Exactly(User(user)), asked, now, config.userPermanentTtl,
            config.userNegativeTtl);
      ghost var built := now;
      Elapse(Settled);
      BackedAges(userBans, Exactly(User(user)), entry, built, now);
      userCache := userCache[user := entry];
      banned := entry.banned;
    }

    /** The verdict is the database's answer at an instant within the call. */
    method IsUserBanned(user: UserId) returns (banned: bool, ghost at: Instant)
      requires Valid()
      modifies this`now, this`userCache, this`ipCache, this`verdicts
      ensures Valid() && old(now) <= at <= now
      ensures banned <==> UserBanned(userBans, user, at)
    {
      var hit;
      hit, at := ServeUserEntry(user);
      if hit.Some? {
        return hit.value, at;
      }
      banned, at := QueryUser(user);
    }

    /** The database part of an upsert: the user's entry is still the old one. */
    method StoreUserBan(user: UserId, until: Option<Instant>) returns (row: Ban, ghost at: Instant)
      requires Valid()
      modifies this`now, this`userBans, this`userCache, this`ipCache, this`verdicts
      ensures Sound(Replacing(User(user))) && old(now) <= at <= now
      ensures userBans == Upserted(old(userBans), User(user), until, at)
      ensures row == Ban(User(user), until, at, None) && row in userBans
    {
      Elapse(Settled);
      var existing := Latest(userBans, Exactly(User(user)), None);
      Elapse(Settled);
      at := now;
      row := Ban(User(user), until, now, None);
      UpsertDecidesItsTarget(userBans, User(user), until, at);
      forall u | u in userCache && u != user
        ensures Backed(Upserted(userBans, User(user), until, at), Exactly(User(u)), userCache[u], now)
      {
        UpsertKeepsEntry(userBans, User(user), until, at, User(u), userCache[u], now);
      }
      userBans := Store(userBans, existing, row);
      assert userBans[if existing.Some? then existing.value else |userBans| - 1] == row;
    }

    method UpsertUserBan(user: UserId, until: Option<Instant>) returns (ghost at: Instant)
      requires Valid()
      modifies this`now, this`userBans, this`userCache, this`ipCache, this`verdicts
      ensures Valid() && old(now) <= at <= now
      ensures userBans == Upserted(old(userBans), User(user), until, at)
    {
      var row;
      row, at := StoreUserBan(user, until);
      Elapse(Replacing(User(user)));
      var entry := EntryFor(row, now, config.userPermanentTtl);
      Elapse(Replacing(User(user)));
      RowBacks(userBans, row, entry, now);
      userCache := userCache[user := entry];
    }

    method LiftUserBan(user: UserId) returns (lifted: bool, ghost at: Instant)
      requires Valid()
      modifies this`now, this`userBans, this`userCache, this`ipCache, this`verdicts
      ensures Valid() && old(now) <= at <= now
      ensures userBans == Lifted(old(userBans), User(user), at)
      ensures lifted <==> exists i | 0 <= i < |old(userBans)| ::
                            old(userBans)[i].target == User(user) && old(userBans)[i].Unlifted()
    {
      Elapse(Settled);
      var existing := Latest(userBans, Exactly(User(user)), None);
      Elapse(Settled);
      at := now;
      forall u | u in userCache && u != user
        ensures Backed(Lifted(userBans, User(user), at), Exactly(User(u)), userCache[u], now)
      {
        LiftKeepsEntry(userBans, User(user), at, User(u), userCache[u], now);
      }
      LiftFreesItsTarget(userBans, User(user), at);
      lifted := existing.Some?;
      assert !lifted ==> forall i | 0 <= i < |userBans| :: !Keeps(Exactly(User(user)), None, userBans[i]);
      if existing.Some? {
        userBans := userBans[existing.value := userBans[existing.value].(liftedAt := Some(now))];
      }
      Elapse(Replacing(User(user)));
      userCache := userCache - {user};
    }

    // ------------------------------------------------------------ ip bans

    method ServeExactEntry(ip: Ip) returns (hit: bool, ghost at: Instant)
      requires Valid()
      modifies this`now, this`userCache, this`ipCache, this`verdicts
      ensures Valid() && old(now) <= at <= now
      ensures hit ==> Banned(ipBans, Exactly(Addr(ip)), at)
    {
      Elapse(Settled);
      at := now;
      if ip !in ipCache {
        return false, at;
      }
      var entry := ipCache[ip];
      ghost var read := now;
      Elapse(Settled);
      at := now;
      hit := !EntryExpired(entry, now) && entry.banned;
      if hit {
        ServedEntryIsExact(ipBans, Exactly(Addr(ip)), entry, read, now);
      }
    }

    method QueryExact(ip: Ip) returns (banned: bool, ghost at: Instant)
      requires Valid()
      modifies this`now, this`userCache, this`ipCache, this`verdicts
      ensures Valid() && old(now) <= at <= now
      ensures banned <==> Banned(ipBans, Exactly(Addr(ip)), at)
    {
      Elapse(Settled);
      var asked := now;
      at := asked;
      Elapse(Settled);
      var entry := QueryEntry(ipBans, Exactly(Addr(ip)), asked, now, config.ipPermanentTtl, config.ipNegativeTtl);
      ghost var built := now;
      Elapse(Settled);
      BackedAges(ipBans, Exactly(Addr(ip)), entry, built, now);
      ipCache := ipCache[ip := entry];
      banned := entry.banned;
    }

    method ServeVerdict(v: nat, ip: Ip) returns (hit: Option<bool>, ghost at: Instant)
      requires Valid() && v == version
      modifies this`now, this`userCache, this`ipCache, this`verdicts
      ensures Valid() && old(now) <= at <= now
      ensures hit.Some? ==> (hit.value <==> Banned(ipBans, Covering(ip), at))
    {
      Elapse(Settled);
      at := now;
      if (v, ip) !in verdicts {
        return None, at;
      }
      var entry := verdicts[(v, ip)];
      ghost var read := now;
      Elapse(Settled);
      at := now;
      if !EntryExpired(entry, now) {
        ServedEntryIsExact(ipBans, Covering(ip), entry, read, now);
        return Some(entry.banned), at;
      }
      return None, at;
    }

    method QueryNetworks(v: nat, ip: Ip) returns (banned: bool, ghost at: Instant)
      requires Valid() && v == version
      modifies this`now, this`userCache, this`ipCache, this`verdicts
      ensures Valid() && old(now) <= at <= now
      ensures banned <==> Banned(ipBans, Covering(ip), at)
    {
      Elapse(Settled);
      var asked := now;
      at := asked;
      Elapse(Settled);
      var entry := NetworkEntry(ipBans, ip, asked, now, config.ipPermanentTtl, config.verdictTtl);
      ghost var built := now;
      Elapse(Settled);
      BackedAges(ipBans, Covering(ip), entry, built, now);
      verdicts := verdicts[(v, ip) := entry];
      banned := entry.banned;
    }

    /** The verdict is the database's answer, exact rows and networks together, at an
        instant within the call. */
    method IsIpBanned(ip: Ip) returns (banned: bool, ghost at: Instant)
      requires Valid()
      modifies this`now, this`userCache, this`ipCache, this`verdicts
      ensures Valid() && old(now) <= at <= now
      ensures banned <==> IpBanned(ipBans, ip, at)
    {
      var hit;
      banned, at := ServeExactEntry(ip);
      if banned {
        return;
      }
      banned, at := QueryExact(ip);
      if banned {
        return;
      }
      ghost var exactAt := at;
      Elapse(Settled);
      var v := version;
      hit, at := ServeVerdict(v, ip);
      if hit.Some? {
        banned := hit.value;
      } else {
        banned, at := QueryNetworks(v, ip);
      }
      assert !Banned(ipBans, Exactly(Addr(ip)), at) by {
        assert !Banned(ipBans, Exactly(Addr(ip)), exactAt) && exactAt <= at;
      }
    }

    /** The database part of an upsert: the ip's entry and the version are still the old
        ones. */
    method StoreIpBan(target: Target, until: Option<Instant>) returns (row: Ban, ghost at: Instant)
      requires Valid() && !target.User?
      modifies this`now, this`ipBans, this`userCache, this`ipCache, this`verdicts
      ensures Sound(Replacing(target)) && old(now) <= at <= now
      ensures ipBans == Upserted(old(ipBans), target, until, at)
      ensures row == Ban(target, until, at, None) && row in ipBans
    {
      Elapse(Settled);
      var existing := Latest(ipBans, Exactly(target), None);
      Elapse(Settled);
      at := now;
      row := Ban(target, until, now, None);
      UpsertDecidesItsTarget(ipBans, target, until, at);
      forall ip | ip in ipCache && ipCache[ip].banned && target != Addr(ip)
        ensures Backed(Upserted(ipBans, target, until, at), Exactly(Addr(ip)), ipCache[ip], now)
      {
        UpsertKeepsEntry(ipBans, target, until, at, Addr(ip), ipCache[ip], now);
      }
      ipBans := Store(ipBans, existing, row);
      assert ipBans[if existing.Some? then existing.value else |ipBans| - 1] == row;
    }

    method UpsertIpBan(target: Target, until: Option<Instant>) returns (ghost at: Instant)
      requires Valid() && !target.User?
      modifies this`now, this`ipBans, this`userCache, this`ipCache, this`verdicts, this`version
      ensures Valid() && old(now) <= at <= now
      ensures ipBans == Upserted(old(ipBans), target, until, at)
      ensures version == old(version) + 1
    {
      var row;
      row, at := StoreIpBan(target, until);
      Elapse(Replacing(target));
      if target.Addr? {
        var entry := EntryFor(row, now, config.ipPermanentTtl);
        Elapse(Replacing(target));
        RowBacks(ipBans, row, entry, now);
        ipCache := ipCache[target.ip := entry];
        Elapse(Bumping);
      }
      version := version + 1;
    }

    /** The database part of a lift. */
    method StoreIpLift(target: Target) returns (lifted: bool, ghost at: Instant)
      requires Valid() && !target.User?
      modifies this`now, this`ipBans, this`userCache, this`ipCache, this`verdicts
      ensures Sound(Replacing(target)) && old(now) <= at <= now
      ensures ipBans == Lifted(old(ipBans), target, at)
      ensures lifted <==> exists i | 0 <= i < |old(ipBans)| ::
                            old(ipBans)[i].target == target && old(ipBans)[i].Unlifted()
    {
      Elapse(Settled);
      var existing := Latest(ipBans, Exactly(target), None);
      Elapse(Settled);
      at := now;
      forall ip | ip in ipCache && ipCache[ip].banned && target != Addr(ip)
        ensures Backed(Lifted(ipBans, target, at), Exactly(Addr(ip)), ipCache[ip], now)
      {
        LiftKeepsEntry(ipBans, target, at, Addr(ip), ipCache[ip], now);
      }
      LiftFreesItsTarget(ipBans, target, at);
      lifted := existing.Some?;
      assert !lifted ==> forall i | 0 <= i < |ipBans| :: !Keeps(Exactly(target), None, ipBans[i]);
      if existing.Some? {
        ipBans := ipBans[existing.value := ipBans[existing.value].(liftedAt := Some(now))];
      }
    }

    method LiftIpBan(target: Target) returns (lifted: bool, ghost at: Instant)
      requires Valid() && !target.User?
      modifies this`now, this`ipBans, this`userCache, this`ipCache, this`verdicts, this`version
      ensures Valid() && old(now) <= at <= now
      ensures ipBans == Lifted(old(ipBans), target, at)
      ensures lifted <==> exists i | 0 <= i < |old(ipBans)| ::
                            old(ipBans)[i].target == target && old(ipBans)[i].Unlifted()
      ensures version == old(version) + 1
    {
      lifted, at := StoreIpLift(target);
      Elapse(Replacing(target));
      if target.Addr? {
        ipCache := ipCache - {target.ip};
        Elapse(Bumping);
      }
      version := version + 1;
    }
  }
}

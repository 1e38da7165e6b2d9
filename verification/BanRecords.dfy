/**
 * Rows of the tables user_bans and ip_bans, the queries that read them, and the
 * cache entries derived from them (src/api/src/services/ban_service.rs).
 *
 * Both tables are sequences in insertion order, and a row's position is its
 * primary key: rows are inserted and updated, never deleted. The columns
 * ip_family and cidr_prefix are functions of the target, because every writer
 * sets them from it. Text columns that no decision reads are left out.
 */
module BanRecords {
  import opened Common

  type UserId = nat

  datatype Ip = Ip(v6: bool, bits: nat)

  /** A network as written, host bits included: two spellings are two targets. */
  datatype Net = Net(v6: bool, bits: nat, prefix: nat)

  datatype Target = User(id: UserId) | Addr(ip: Ip) | Cidr(net: Net)

  datatype Ban = Ban(target: Target, until: Option<Instant>, createdAt: Instant, liftedAt: Option<Instant>) {
    predicate Unlifted() {
      liftedAt.None?
    }

    predicate ActiveAt(t: Instant) {
      Unlifted() && (until.None? || until.value > t)
    }
  }

  function Width(v6: bool): nat {
    if v6 then 128 else 32
  }

  /** `IpNet::contains`: same family, and equal once the host bits are shifted out. */
  predicate Contains(net: Net, ip: Ip) {
    && net.v6 == ip.v6
    && net.prefix <= Width(net.v6)
    && net.bits / Pow2(Width(net.v6) - net.prefix) == ip.bits / Pow2(Width(net.v6) - net.prefix)
  }

  /** Bit `j` of an address of `width` bits, the most significant first. */
  function Bit(bits: nat, width: nat, j: nat): nat
    requires j < width
  {
    bits / Pow2(width - 1 - j) % 2
  }

  ghost predicate SameBits(a: nat, b: nat, width: nat, prefix: nat)
    requires prefix <= width
  {
    forall j: nat | j < prefix :: Bit(a, width, j) == Bit(b, width, j)
  }

  lemma {:induction false} SameTopIsSameBits(a: nat, b: nat, width: nat, prefix: nat)
    requires prefix <= width && a < Pow2(width) && b < Pow2(width)
    ensures a / Pow2(width - prefix) == b / Pow2(width - prefix) <==> SameBits(a, b, width, prefix)
    decreases prefix
  {
    if prefix == 0 {
      DivideIs(a, Pow2(width), 0, a);
      DivideIs(b, Pow2(width), 0, b);
    } else {
      SameTopIsSameBits(a, b, width, prefix - 1);
      var unit := Pow2(width - prefix);
      assert Pow2(width - (prefix - 1)) == 2 * unit;
      DivideTwice(a, unit);
      DivideTwice(b, unit);
      assert Bit(a, width, prefix - 1) == a / unit % 2 && Bit(b, width, prefix - 1) == b / unit % 2;
    }
  }

  /** The members of a network are the addresses of its family that agree with it on each of
      the first `prefix` bits. */
  lemma ContainsIsPrefixMatch(net: Net, ip: Ip)
    requires net.bits < Pow2(Width(net.v6)) && ip.bits < Pow2(Width(ip.v6)) && net.prefix <= Width(net.v6)
    ensures Contains(net, ip) <==> net.v6 == ip.v6 && SameBits(net.bits, ip.bits, Width(net.v6), net.prefix)
  {
    if net.v6 == ip.v6 {
      SameTopIsSameBits(net.bits, ip.bits, Width(net.v6), net.prefix);
    }
  }

  lemma SameQuotient(a: nat, b: nat, unit: nat)
    requires unit >= 1
    ensures a / unit == b / unit <==> a - a % unit <= b < a - a % unit + unit
  {
    var q := a / unit;
    assert a == unit * q + a % unit && b == unit * (b / unit) + b % unit;
    if a - a % unit <= b < a - a % unit + unit {
      DivideIs(b, unit, q, b - unit * q);
    }
  }

  /** They are one aligned block of 2^(width - prefix) addresses, the written one included:
      every address for prefix 0, the written one alone for the full width. */
  lemma ContainsIsBlock(net: Net, ip: Ip)
    requires net.prefix <= Width(net.v6)
    ensures var size := Pow2(Width(net.v6) - net.prefix);
            var first := net.bits - net.bits % size;
            Contains(net, ip) <==> ip.v6 == net.v6 && first <= ip.bits < first + size
    ensures net.prefix == Width(net.v6) ==> (Contains(net, ip) <==> ip == Ip(net.v6, net.bits))
  {
    SameQuotient(net.bits, ip.bits, Pow2(Width(net.v6) - net.prefix));
  }

  /** A longer prefix around a member is part of the network. */
  lemma LongerPrefixIsPart(net: Net, inner: Net, ip: Ip)
    requires net.bits < Pow2(Width(net.v6)) && inner.bits < Pow2(Width(net.v6)) && ip.bits < Pow2(Width(net.v6))
    requires Contains(net, Ip(inner.v6, inner.bits)) && net.prefix <= inner.prefix && Contains(inner, ip)
    ensures Contains(net, ip)
  {
    ContainsIsPrefixMatch(net, Ip(inner.v6, inner.bits));
    ContainsIsPrefixMatch(inner, ip);
    ContainsIsPrefixMatch(net, ip);
    forall j: nat | j < net.prefix
      ensures Bit(net.bits, Width(net.v6), j) == Bit(ip.bits, Width(net.v6), j)
    {
      assert Bit(inner.bits, Width(net.v6), j) == Bit(ip.bits, Width(net.v6), j);
    }
  }

  /** 10.0.0.0/8 is 10.0.0.0 to 10.255.255.255. */
  lemma PrivateClassA(ip: Ip)
    ensures Contains(Net(false, 0x0A00_0000, 8), ip) <==> !ip.v6 && 0x0A00_0000 <= ip.bits <= 0x0AFF_FFFF
  {
    assert Pow2(8) == 256;
    Pow2Adds(8, 8);
    Pow2Adds(8, 16);
    ContainsIsBlock(Net(false, 0x0A00_0000, 8), ip);
  }

  /** What a query asks of a row's target. */
  datatype Probe = Exactly(target: Target) | Covering(ip: Ip)

  predicate Hits(p: Probe, target: Target) {
    match p
    case Exactly(x) => target == x
    case Covering(ip) => target.Cidr? && Contains(target.net, ip)
  }

  /** The uncached answer: some row the probe hits is unlifted and unexpired at `t`. */
  ghost predicate Banned(rows: seq<Ban>, p: Probe, t: Instant) {
    exists i | 0 <= i < |rows| :: Hits(p, rows[i].target) && rows[i].ActiveAt(t)
  }

  ghost predicate UserBanned(rows: seq<Ban>, user: UserId, t: Instant) {
    Banned(rows, Exactly(User(user)), t)
  }

  ghost predicate IpBanned(rows: seq<Ban>, ip: Ip, t: Instant) {
    Banned(rows, Exactly(Addr(ip)), t) || Banned(rows, Covering(ip), t)
  }

  /** The partial unique indexes: at most one unlifted row per target. */
  ghost predicate OneOpenPerTarget(rows: seq<Ban>) {
    forall i, j | 0 <= i < j < |rows| ::
      rows[i].target == rows[j].target ==> !(rows[i].Unlifted() && rows[j].Unlifted())
  }

  // ---------------------------------------------------------------- queries

  predicate Keeps(p: Probe, at: Option<Instant>, row: Ban) {
    Hits(p, row.target) && row.Unlifted() && (at.Some? ==> row.ActiveAt(at.value))
  }

  /** `... ORDER BY created_at DESC LIMIT 1` over the unlifted (and, given an
      instant, unexpired) rows that the probe hits. */
  function Latest(rows: seq<Ban>, p: Probe, at: Option<Instant>): (r: Option<nat>)
    ensures r.None? <==> forall i | 0 <= i < |rows| :: !Keeps(p, at, rows[i])
    ensures r.Some? ==>
              && r.value < |rows|
              && Keeps(p, at, rows[r.value])
              && forall j | 0 <= j < |rows| && Keeps(p, at, rows[j]) :: rows[j].createdAt <= rows[r.value].createdAt
  {
    if rows == [] then None
    else
      var n := |rows| - 1;
      var best := Latest(rows[..n], p, at);
      if Keeps(p, at, rows[n]) && (best.None? || rows[best.value].createdAt < rows[n].createdAt) then Some(n)
      else best
  }

  predicate Sooner(a: Ban, b: Ban)
    requires a.target.Cidr? && b.target.Cidr?
  {
    || a.target.net.prefix > b.target.net.prefix
    || (a.target.net.prefix == b.target.net.prefix && a.createdAt >= b.createdAt)
  }

  ghost predicate MostSpecificFirst(q: seq<Ban>) {
    && (forall i | 0 <= i < |q| :: q[i].target.Cidr?)
    && (forall i, j | 0 <= i < j < |q| :: Sooner(q[i], q[j]))
  }

  function Insert(row: Ban, q: seq<Ban>): (r: seq<Ban>)
    requires row.target.Cidr? && MostSpecificFirst(q)
    ensures MostSpecificFirst(r)
    ensures forall x :: x in r <==> x == row || x in q
  {
    if q == [] || Sooner(row, q[0]) then [row] + q
    else
      var rest := Insert(row, q[1..]);
      assert forall x | x in rest :: Sooner(q[0], x) by {
        forall x | x in rest ensures Sooner(q[0], x) {
          if x != row {
            assert x in q[1..];
          }
        }
      }
      assert q == [q[0]] + q[1..];
      [q[0]] + rest
  }

  /** The rows of ip_bans that `query_cidr_ip_bans` returns, in its order. */
  function ActiveCidrRows(rows: seq<Ban>, ip: Ip, t: Instant): (q: seq<Ban>)
    ensures MostSpecificFirst(q)
    ensures forall x :: x in q <==> x in rows && x.target.Cidr? && x.target.net.v6 == ip.v6 && x.ActiveAt(t)
  {
    if rows == [] then []
    else
      var n := |rows| - 1;
      var q := ActiveCidrRows(rows[..n], ip, t);
      assert rows == rows[..n] + [rows[n]];
      var row := rows[n];
      if row.target.Cidr? && row.target.net.v6 == ip.v6 && row.ActiveAt(t) then Insert(row, q) else q
  }

  function FirstHit(ip: Ip, q: seq<Ban>): (r: Option<nat>)
    ensures r.None? <==> forall i | 0 <= i < |q| :: !Hits(Covering(ip), q[i].target)
    ensures r.Some? ==>
              && r.value < |q| && Hits(Covering(ip), q[r.value].target)
              && forall j | 0 <= j < r.value :: !Hits(Covering(ip), q[j].target)
  {
    if q == [] then None
    else if Hits(Covering(ip), q[0].target) then Some(0)
    else
      var r := FirstHit(ip, q[1..]);
      assert q == [q[0]] + q[1..];
      if r.Some? then Some(r.value + 1) else None
  }

  /** `cidr_match_for_ip`: the first row of the query whose network contains the ip. */
  function CidrMatch(ip: Ip, q: seq<Ban>): Option<Ban> {
    var i := FirstHit(ip, q);
    if i.Some? then Some(q[i.value]) else None
  }

  /** The family prefilter and the first-match choice lose nothing: a match exists
      exactly when the ip is covered. */
  lemma CidrMatchIsExact(rows: seq<Ban>, ip: Ip, t: Instant)
    ensures var r := CidrMatch(ip, ActiveCidrRows(rows, ip, t));
            && (r.Some? <==> Banned(rows, Covering(ip), t))
            && (r.Some? ==> r.value in rows && r.value.ActiveAt(t) && Hits(Covering(ip), r.value.target))
  {
    var q := ActiveCidrRows(rows, ip, t);
    var r := CidrMatch(ip, q);
    if r.Some? {
      assert r.value in q;
      var k :| 0 <= k < |rows| && rows[k] == r.value;
    } else {
      forall k | 0 <= k < |rows| && Hits(Covering(ip), rows[k].target) ensures !rows[k].ActiveAt(t) {
        assert rows[k] in q <==> rows[k].ActiveAt(t);
      }
    }
  }

  /** And the match is one of the longest prefixes that cover the ip, and of these the
      newest. */
  lemma CidrMatchIsMostSpecific(rows: seq<Ban>, ip: Ip, t: Instant, x: Ban)
    requires x in rows && x.ActiveAt(t) && Hits(Covering(ip), x.target)
    ensures var r := CidrMatch(ip, ActiveCidrRows(rows, ip, t));
            && r.Some? && r.value.target.Cidr? && x.target.net.prefix <= r.value.target.net.prefix
            && (x.target.net.prefix == r.value.target.net.prefix ==> x.createdAt <= r.value.createdAt)
  {
    var q := ActiveCidrRows(rows, ip, t);
    assert x in q;
    var j :| 0 <= j < |q| && q[j] == x;
    var i := FirstHit(ip, q).value;
    assert i <= j;
    assert i < j ==> Sooner(q[i], q[j]);
  }

  // ---------------------------------------------------------------- writes

  /** Insert a row, or overwrite the row with the given key. */
  function Store(rows: seq<Ban>, slot: Option<nat>, row: Ban): (r: seq<Ban>)
    requires slot.Some? ==> slot.value < |rows|
  {
    if slot.Some? then rows[slot.value := row] else rows + [row]
  }

  /** The unique index refuses the write. */
  predicate Refused(rows: seq<Ban>, slot: Option<nat>, row: Ban) {
    && row.Unlifted()
    && exists j | 0 <= j < |rows| :: Some(j) != slot && rows[j].target == row.target && rows[j].Unlifted()
  }

  function Upserted(rows: seq<Ban>, target: Target, until: Option<Instant>, at: Instant): seq<Ban> {
    Store(rows, Latest(rows, Exactly(target), None), Ban(target, until, at, None))
  }

  function Lifted(rows: seq<Ban>, target: Target, at: Instant): seq<Ban> {
    var slot := Latest(rows, Exactly(target), None);
    if slot.None? then rows else rows[slot.value := rows[slot.value].(liftedAt := Some(at))]
  }

  /** The index lets every sequential upsert through, and an upsert decides its own
      target from then on and no other exact target. */
  lemma UpsertDecidesItsTarget(rows: seq<Ban>, target: Target, until: Option<Instant>, at: Instant)
    requires OneOpenPerTarget(rows)
    ensures !Refused(rows, Latest(rows, Exactly(target), None), Ban(target, until, at, None))
    ensures OneOpenPerTarget(Upserted(rows, target, until, at))
    ensures forall t ::
              Banned(Upserted(rows, target, until, at), Exactly(target), t) <==> (until.None? || until.value > t)
    ensures forall x, t | x != target ::
              Banned(Upserted(rows, target, until, at), Exactly(x), t) <==> Banned(rows, Exactly(x), t)
  {
    var slot := Latest(rows, Exactly(target), None);
    var r := Upserted(rows, target, until, at);
    var k := if slot.Some? then slot.value else |rows|;
    assert r[k] == Ban(target, until, at, None);
    assert forall i | 0 <= i < |rows| && i != k :: r[i] == rows[i];
    assert forall i | 0 <= i < |rows| && i != k && rows[i].target == target :: !rows[i].Unlifted() by {
      forall i | 0 <= i < |rows| && i != k && rows[i].target == target ensures !rows[i].Unlifted() {
        assert Keeps(Exactly(target), None, rows[i]) <==> rows[i].Unlifted();
      }
    }
    forall x, t | x != target
      ensures Banned(r, Exactly(x), t) <==> Banned(rows, Exactly(x), t)
    {
      if Banned(rows, Exactly(x), t) {
        var i :| 0 <= i < |rows| && Hits(Exactly(x), rows[i].target) && rows[i].ActiveAt(t);
        assert r[i] == rows[i];
      }
    }
  }

  /** A lift frees its target, whatever its expiry, and touches no other. */
  lemma LiftFreesItsTarget(rows: seq<Ban>, target: Target, at: Instant)
    requires OneOpenPerTarget(rows)
    ensures OneOpenPerTarget(Lifted(rows, target, at))
    ensures forall t :: !Banned(Lifted(rows, target, at), Exactly(target), t)
    ensures forall x, t | x != target ::
              Banned(Lifted(rows, target, at), Exactly(x), t) <==> Banned(rows, Exactly(x), t)
  {
    var slot := Latest(rows, Exactly(target), None);
    var r := Lifted(rows, target, at);
    forall i | 0 <= i < |rows| && rows[i].target == target ensures !r[i].Unlifted() {
      assert Keeps(Exactly(target), None, rows[i]) <==> rows[i].Unlifted();
    }
    forall x, t | x != target
      ensures Banned(r, Exactly(x), t) <==> Banned(rows, Exactly(x), t)
    {
      if Banned(rows, Exactly(x), t) {
        var i :| 0 <= i < |rows| && Hits(Exactly(x), rows[i].target) && rows[i].ActiveAt(t);
        assert r[i] == rows[i];
      }
    }
  }

  // ---------------------------------------------------------------- a write in two statements

  /** Rows of the target, if there are any, have been lifted. */
  ghost predicate NoOpenRow(rows: seq<Ban>, target: Target) {
    forall i | 0 <= i < |rows| :: rows[i].target == target ==> !rows[i].Unlifted()
  }

  /** Rows are never deleted and never change their target. */
  ghost predicate Grown(rows: seq<Ban>, later: seq<Ban>) {
    |rows| <= |later| && forall i | 0 <= i < |rows| :: later[i].target == rows[i].target
  }

  /** The rows of the target are the same in both. */
  ghost predicate SameRowsOf(rows: seq<Ban>, later: seq<Ban>, target: Target) {
    && Grown(rows, later)
    && forall i | 0 <= i < |later| && later[i].target == target :: i < |rows| && later[i] == rows[i]
  }

  /** Under the unique index, the row that a write finds is the only open one. */
  lemma FoundIsTheOpenRow(rows: seq<Ban>, target: Target, i: nat)
    requires OneOpenPerTarget(rows) && i < |rows| && rows[i].target == target && rows[i].Unlifted()
    ensures Latest(rows, Exactly(target), None) == Some(i)
  {
    assert Keeps(Exactly(target), None, rows[i]);
  }

  /** The index refuses no upsert whose target was left alone since its row was looked up. */
  lemma StoreAfterFind(rows: seq<Ban>, later: seq<Ban>, row: Ban)
    requires OneOpenPerTarget(rows) && SameRowsOf(rows, later, row.target)
    ensures !Refused(later, Latest(rows, Exactly(row.target), None), row)
  {
    forall j: nat | j < |later| && later[j].target == row.target && later[j].Unlifted()
      ensures Some(j) == Latest(rows, Exactly(row.target), None)
    {
      FoundIsTheOpenRow(rows, row.target, j);
    }
  }

  /** And such a lift leaves no open row of its target. */
  lemma LiftAfterFind(rows: seq<Ban>, later: seq<Ban>, target: Target, at: Instant)
    requires OneOpenPerTarget(rows) && SameRowsOf(rows, later, target)
    ensures var slot := Latest(rows, Exactly(target), None);
            && (slot.None? ==> NoOpenRow(later, target))
            && (slot.Some? ==> slot.value < |later|
                               && NoOpenRow(later[slot.value := later[slot.value].(liftedAt := Some(at))], target))
  {
    forall j | 0 <= j < |later| && later[j].target == target && later[j].Unlifted()
      ensures Latest(rows, Exactly(target), None) == Some(j)
    {
      FoundIsTheOpenRow(rows, target, j);
    }
  }

  /** A write of one target leaves the rows of every other as they are. */
  lemma StoreSparesOthers(rows: seq<Ban>, slot: Option<nat>, row: Ban, target: Target)
    requires slot.Some? ==> slot.value < |rows| && rows[slot.value].target == row.target
    ensures Grown(rows, Store(rows, slot, row))
    ensures target != row.target ==> SameRowsOf(rows, Store(rows, slot, row), target)
  {
  }

  lemma GrowthChains(a: seq<Ban>, b: seq<Ban>, c: seq<Ban>, target: Target)
    requires Grown(a, b) && Grown(b, c)
    ensures Grown(a, c)
    ensures SameRowsOf(a, b, target) && SameRowsOf(b, c, target) ==> SameRowsOf(a, c, target)
  {
  }

  /** Storing a row keeps the unique index, which refuses it otherwise. */
  lemma StoreKeepsIndex(rows: seq<Ban>, slot: Option<nat>, row: Ban)
    requires OneOpenPerTarget(rows) && !Refused(rows, slot, row)
    requires slot.Some? ==> slot.value < |rows|
    ensures OneOpenPerTarget(Store(rows, slot, row))
  {
  }

  // ---------------------------------------------------------------- cache entries

  /** A Redis value together with the instant at which Redis forgets it. */
  datatype Entry = Entry(banned: bool, expiresAt: Option<int>, dies: Instant)

  const TEMP_BAN_CACHE_CAP_SECS: int := 300

  function ActiveTtl(until: Option<Instant>, now: Instant, permanentTtl: nat): (ttl: nat)
    ensures 1 <= ttl <= Max(TEMP_BAN_CACHE_CAP_SECS, permanentTtl)
    ensures until.Some? && until.value >= now + NANOS_PER_SEC ==> now + Seconds(ttl) <= until.value
    ensures until.Some? && until.value < now + 300 * NANOS_PER_SEC ==> until.value < now + Seconds(ttl + 1)
    ensures until.Some? && until.value >= now + 300 * NANOS_PER_SEC ==> ttl == 300
    ensures until.None? ==> ttl == Max(permanentTtl, 1)
  {
    if until.Some? then Min(Max(NumSeconds(until.value - now), 1), TEMP_BAN_CACHE_CAP_SECS)
    else Max(permanentTtl, 1)
  }

  function UntilSecs(until: Option<Instant>): Option<int> {
    if until.Some? then Some(WholeSecs(until.value)) else None
  }

  function EntryFor(row: Ban, now: Instant, permanentTtl: nat): Entry {
    Entry(true, UntilSecs(row.until), now + Seconds(ActiveTtl(row.until, now, permanentTtl)))
  }

  function NegativeEntry(now: Instant, ttl: nat): Entry {
    Entry(false, None, now + Seconds(Max(ttl, 1)))
  }

  /** `cache_entry_is_expired` */
  predicate EntryExpired(e: Entry, now: Instant) {
    e.banned && e.expiresAt.Some? && WholeSecs(now) >= e.expiresAt.value
  }

  /** What makes an entry safe to serve: a positive one quotes the expiry of an
      unlifted row, a negative one was, and therefore still is, the answer. */
  ghost predicate Backed(rows: seq<Ban>, p: Probe, e: Entry, t: Instant) {
    if e.banned then
      exists i | 0 <= i < |rows| ::
        Hits(p, rows[i].target) && rows[i].Unlifted() && e.expiresAt == UntilSecs(rows[i].until)
    else
      !Banned(rows, p, t)
  }

  /** Serving a backed entry that has not expired gives the uncached answer, even
      though expiry is compared in whole seconds. */
  lemma ServedEntryIsExact(rows: seq<Ban>, p: Probe, e: Entry, written: Instant, t: Instant)
    requires Backed(rows, p, e, written) && written <= t && !EntryExpired(e, t)
    ensures e.banned <==> Banned(rows, p, t)
  {
    if e.banned {
      var i :| 0 <= i < |rows| && Hits(p, rows[i].target) && rows[i].Unlifted()
            && e.expiresAt == UntilSecs(rows[i].until);
      assert rows[i].ActiveAt(t);
    }
  }

  /** And an entry made of a ban that has a second left to run is served. */
  lemma FreshEntryIsServed(row: Ban, now: Instant, permanentTtl: nat, t: Instant)
    requires row.until.Some? ==> t + NANOS_PER_SEC <= row.until.value
    ensures !EntryExpired(EntryFor(row, now, permanentTtl), t)
  {
  }

  lemma BackedAges(rows: seq<Ban>, p: Probe, e: Entry, t: Instant, later: Instant)
    requires Backed(rows, p, e, t) && t <= later
    ensures Backed(rows, p, e, later)
  {
  }

  /** The entry made from a stored, unlifted row is backed by it. */
  lemma RowBacks(rows: seq<Ban>, row: Ban, e: Entry, t: Instant)
    requires row in rows && row.Unlifted() && e.banned && e.expiresAt == UntilSecs(row.until)
    ensures Backed(rows, Exactly(row.target), e, t)
  {
    var i :| 0 <= i < |rows| && rows[i] == row;
    assert Hits(Exactly(row.target), rows[i].target);
  }

  /** The entry that a check builds from its single-row query at `asked`. */
  function QueryEntry(rows: seq<Ban>, p: Probe, asked: Instant, now: Instant, positiveTtl: nat,
          negativeTtl: nat): (e: Entry)
    ensures e.banned <==> Banned(rows, p, asked)
    ensures now + NANOS_PER_SEC <= e.dies
    ensures asked <= now ==> Backed(rows, p, e, now)
  {
    var found := Latest(rows, p, Some(asked));
    if found.Some? then
      assert Keeps(p, Some(asked), rows[found.value]);
      EntryFor(rows[found.value], now, positiveTtl)
    else
      assert forall i | 0 <= i < |rows| :: !Keeps(p, Some(asked), rows[i]);
      NegativeEntry(now, negativeTtl)
  }

  /** The entry that a check builds from its network query at `asked`. */
  function NetworkEntry(rows: seq<Ban>, ip: Ip, asked: Instant, now: Instant, positiveTtl: nat,
          negativeTtl: nat): (e: Entry)
    ensures e.banned <==> Banned(rows, Covering(ip), asked)
    ensures now + NANOS_PER_SEC <= e.dies
    ensures asked <= now ==> Backed(rows, Covering(ip), e, now)
  {
    var found := CidrMatch(ip, ActiveCidrRows(rows, ip, asked));
    CidrMatchIsExact(rows, ip, asked);
    if found.Some? then
      assert forall i | 0 <= i < |rows| && rows[i] == found.value ::
          Hits(Covering(ip), rows[i].target) && rows[i].Unlifted();
      EntryFor(found.value, now, positiveTtl)
    else
      NegativeEntry(now, negativeTtl)
  }
}

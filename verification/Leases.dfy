/** The lease directory, after internal/routing/redis.go: an atomic map whose entries expire. */
module Leases {
  import opened GoStrings
  import opened Wrappers

  datatype Error = InvalidConfig | RouteNotFound | Unavailable

  /** The token is different for every publisher process. */
  datatype Lease = Lease(gatewayID: string, webSocketURL: string, token: string)

  type Directory = map<int, Lease>

  function Registered(d: Directory, partition: int, lease: Lease): Directory {
    d[partition := lease]
  }

  /** Deletes the lease only if it carries the given token. */
  function Released(d: Directory, partition: int, token: string): Directory {
    if partition in d && d[partition].token == token then d - {partition} else d
  }

  datatype Entry = Entry(lease: Lease, expires: int)

  /** Has the partition an unexpired lease with the given token? */
  predicate CarriesToken(entries: map<int, Entry>, partition: int, token: string, now: int) {
    partition in entries && now < entries[partition].expires && entries[partition].lease.token == token
  }

  /** The leases that have not expired at time `now`. */
  ghost function Unexpired(entries: map<int, Entry>, now: int): Directory {
    map p | p in entries && now < entries[p].expires :: entries[p].lease
  }

  class RedisRegistry {
    var entries: map<int, Entry>
    /** Whether a URL parses to a plain ws or wss address. */
    const safeURL: string -> bool

    ghost function At(now: int): Directory
      reads this
    {
      Unexpired(entries, now)
    }

    predicate ValidLease(lease: Lease): (valid: bool)
      ensures valid <==> !Blank(lease.gatewayID) && !Blank(lease.token) && safeURL(lease.webSocketURL)
    {
      TrimSpaceIsTrimmed(lease.gatewayID);
      TrimSpaceIsTrimmed(lease.token);
      TrimSpace(lease.gatewayID) != "" && TrimSpace(lease.token) != "" && safeURL(lease.webSocketURL)
    }

    constructor (safeURL: string -> bool)
      ensures this.safeURL == safeURL && entries == map[]
    {
      entries, this.safeURL := map[], safeURL;
    }

    /** `down` stands for a failing network; a later owner may overwrite an earlier one's lease. */
    method Register(partition: int, lease: Lease, ttl: int, now: int, down: bool) returns (r: Outcome<Error>)
      modifies this
      ensures r == if partition < 0 || ttl <= 0 || !ValidLease(lease) then Fail(InvalidConfig)
                   else if down then Fail(Unavailable) else Pass
      ensures entries == if r.Pass? then old(entries)[partition := Entry(lease, now + ttl)] else old(entries)
      ensures r.Pass? ==> forall t :: now <= t < now + ttl ==> partition in At(t) && At(t)[partition] == lease
      ensures r.Pass? ==> forall t ::
                At(t) == if t < now + ttl then Registered(old(At(t)), partition, lease) else old(At(t)) - {partition}
    {
      if partition < 0 || ttl <= 0 || !ValidLease(lease) {
        return Fail(InvalidConfig);
      }
      if down {
        return Fail(Unavailable);
      }
      entries := entries[partition := Entry(lease, now + ttl)];
      return Pass;
    }

    method Resolve(partition: int, now: int, down: bool) returns (r: Result<Lease, Error>)
      ensures r.Ok? <==> partition >= 0 && !down && partition in At(now) && ValidLease(At(now)[partition])
      ensures r.Ok? ==> r.value == At(now)[partition]
      ensures r == Err(RouteNotFound) <==> partition >= 0 && !down && partition !in At(now)
    {
      if partition < 0 {
        return Err(InvalidConfig);
      }
      if down {
        return Err(Unavailable);
      }
      if partition !in entries || entries[partition].expires <= now {
        return Err(RouteNotFound);
      }
      if !ValidLease(entries[partition].lease) {
        return Err(InvalidConfig);
      }
      return Ok(entries[partition].lease);
    }

    /** Compare and delete are one atomic step. */
    method Release(partition: int, token: string, now: int, down: bool) returns (r: Outcome<Error>)
      modifies this
      ensures r == if partition < 0 || TrimSpace(token) == "" then Fail(InvalidConfig)
                   else if down then Fail(Unavailable) else Pass
      ensures entries == if r.Pass? && CarriesToken(old(entries), partition, token, now) then old(entries) - {partition}
                         else old(entries)
      ensures r.Pass? ==> forall t :: now <= t && partition in At(t) ==> At(t)[partition].token != token
      ensures forall t, p :: now <= t && p in old(At(t)) && !(p == partition && old(At(t))[p].token == token) ==>
                p in At(t) && At(t)[p] == old(At(t))[p]
      ensures r.Pass? ==> At(now) == Released(old(At(now)), partition, token)
      ensures forall t :: now <= t ==>
                At(t).Keys <= old(At(t)).Keys && forall p :: p in At(t) ==> At(t)[p] == old(At(t))[p]
    {
      if partition < 0 || TrimSpace(token) == "" {
        return Fail(InvalidConfig);
      }
      if down {
        return Fail(Unavailable);
      }
      if CarriesToken(entries, partition, token, now) {
        entries := entries - {partition};
      }
      return Pass;
    }
  }
}

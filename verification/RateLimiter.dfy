/** The two-layer rate limiter: its state, one `check`, one `sweep`, and the object that
    performs them in place. Each call runs under the limiter's mutex, so it is one atomic step. */
module RateLimiters {
  import opened Words
  import opened Addresses
  import opened TokenBuckets

  /** A Kiss-o'-Death is suggested for the first limited packet and then for every eighth. */
  const KOD_INTERVAL: u32 := 8
  const FORCED_SWEEP_INTERVAL: nat := NANOS_PER_SECOND

  /** `ttl` is in nanoseconds. */
  datatype Settings = Settings(
    enabled: bool, rate: u32, burst: u32, globalRate: u32, globalBurst: u32, ttl: nat, maxEntries: nat)

  /** What configuration validation guarantees to an enabled limiter. */
  predicate ValidSettings(s: Settings) {
    s.enabled && s.rate >= 1 && s.burst >= 1 && s.ttl >= 1 && s.maxEntries >= 1
  }

  datatype Decision =
    | Allowed
    | LimitedPerClient(sendKod: bool)
    | LimitedGlobal
    | TableFull

  datatype Entry = Entry(bucket: Bucket, lastSeen: int, limitedCount: u32)

  datatype Limiter = Limiter(clients: map<IpAddr, Entry>, global: Bucket, lastForcedSweep: int)

  function NewLimiter(s: Settings, now: int): Limiter {
    Limiter(map[], FullBucket(s.globalBurst, now), now)
  }

  /** The entries seen less than `ttl` ago. */
  function Retained(clients: map<IpAddr, Entry>, ttl: nat, now: int): map<IpAddr, Entry> {
    map a | a in clients && Elapsed(clients[a].lastSeen, now) < ttl :: clients[a]
  }

  /** A request from a tracked client. */
  function Hit(s: Settings, e: Entry, now: int): (Entry, Decision) {
    var (bucket, taken) := Take(e.bucket, s.rate, s.burst, now);
    if taken then
      (Entry(bucket, now, 0), Allowed)
    else
      (Entry(bucket, now, WrappingIncrement(e.limitedCount)),
       LimitedPerClient(e.limitedCount % KOD_INTERVAL == 0))
  }

  /** The entry of a client at its first request. */
  function NewEntry(s: Settings, now: int): Entry {
    Entry(Take(FullBucket(s.burst, now), s.rate, s.burst, now).0, now, 0)
  }

  /** A full table is scanned for expired entries, but not more than once a second. */
  predicate ForcesSweep(s: Settings, l: Limiter, now: int) {
    |l.clients| >= s.maxEntries && Elapsed(l.lastForcedSweep, now) >= FORCED_SWEEP_INTERVAL
  }

  function MakeRoom(s: Settings, l: Limiter, now: int): Limiter {
    if ForcesSweep(s, l, now)
    then l.(lastForcedSweep := now, clients := Retained(l.clients, s.ttl, now))
    else l
  }

  function CheckClient(s: Settings, l: Limiter, source: IpAddr, now: int): (Limiter, Decision) {
    if source in l.clients then
      var (entry, decision) := Hit(s, l.clients[source], now);
      (l.(clients := l.clients[source := entry]), decision)
    else
      var room := MakeRoom(s, l, now);
      if |room.clients| >= s.maxEntries then
        (room, TableFull)
      else
        (room.(clients := room.clients[source := NewEntry(s, now)]), Allowed)
  }

  /** The global layer: its bucket after the check, and whether the check passes it. */
  function CheckGlobal(s: Settings, global: Bucket, now: int): (Bucket, bool) {
    if s.globalRate > 0 then Take(global, s.globalRate, s.globalBurst, now) else (global, true)
  }

  /** Specification of `check`. */
  function Check(s: Settings, l: Limiter, source: IpAddr, now: int): (Limiter, Decision) {
    if !s.enabled then
      (l, Allowed)
    else
      var (global, passed) := CheckGlobal(s, l.global, now);
      if passed then CheckClient(s, l.(global := global), source, now)
      else (l.(global := global), LimitedGlobal)
  }

  /** Specification of `sweep`. */
  function Sweep(s: Settings, l: Limiter, now: int): Limiter {
    l.(clients := Retained(l.clients, s.ttl, now))
  }

  // ---------------------------------------------------------------------
  // The limiter as an object
  // ---------------------------------------------------------------------

  class ClientEntry {
    const bucket: TokenBucket
    var lastSeen: int
    var limitedCount: u32

    function View(): Entry
      reads this, bucket
    {
      Entry(bucket.View(), lastSeen, limitedCount)
    }

    /** The first request of a client spends one token of a full burst. */
    constructor (settings: Settings, now: int)
      ensures fresh(bucket) && View() == NewEntry(settings, now)
    {
      bucket := new TokenBucket(settings.burst, now);
      lastSeen := now;
      limitedCount := 0;
      new;
      var allowed := bucket.TryTake(settings.rate, settings.burst, now);
    }

    method RequestAgain(settings: Settings, now: int) returns (decision: Decision)
      modifies this, bucket
      ensures (View(), decision) == Hit(settings, old(View()), now)
    {
      lastSeen := now;
      var taken := bucket.TryTake(settings.rate, settings.burst, now);
      if taken {
        limitedCount := 0;
        decision := Allowed;
      } else {
        decision := LimitedPerClient(limitedCount % KOD_INTERVAL == 0);
        limitedCount := WrappingIncrement(limitedCount);
      }
    }
  }

  class RateLimiter {
    const settings: Settings
    var clients: map<IpAddr, ClientEntry>
    const global: TokenBucket
    var lastForcedSweep: int

    function Entries(): set<ClientEntry>
      reads this
    {
      set a | a in clients :: clients[a]
    }

    function Buckets(): set<TokenBucket>
      reads this
    {
      set a | a in clients :: clients[a].bucket
    }

    /** No two clients share an entry or a bucket, and none uses the global bucket. */
    ghost predicate Valid()
      reads this
    {
      && (forall a, b :: a in clients && b in clients && a != b ==>
            clients[a] != clients[b] && clients[a].bucket != clients[b].bucket)
      && (forall a :: a in clients ==> clients[a].bucket != global)
    }

    ghost function View(): Limiter
      reads this, Entries(), Buckets(), global
    {
      Limiter(map a | a in clients :: clients[a].View(), global.View(), lastForcedSweep)
    }

    constructor (settings: Settings, now: int)
      ensures Valid() && this.settings == settings && View() == NewLimiter(settings, now)
      ensures fresh(global)
    {
      this.settings := settings;
      clients := map[];
      global := new TokenBucket(settings.globalBurst, now);
      lastForcedSweep := now;
    }

    method SweepExpired(now: int)
      requires Valid()
      modifies this`clients
      ensures Valid() && Entries() <= old(Entries()) && Buckets() <= old(Buckets())
      ensures clients.Keys <= old(clients.Keys)
      ensures View() == Sweep(settings, old(View()), now)
    {
      clients := map a | a in clients && Elapsed(clients[a].lastSeen, now) < settings.ttl :: clients[a];
    }

    method PassGlobal(now: int) returns (passed: bool)
      requires Valid()
      modifies global
      ensures Valid() && (View().global, passed) == CheckGlobal(settings, old(View()).global, now)
      ensures View() == old(View()).(global := View().global)
    {
      passed := true;
      if settings.globalRate > 0 {
        passed := global.TryTake(settings.globalRate, settings.globalBurst, now);
      }
      assert View().clients == old(View()).clients;
    }

    method ServeTracked(source: IpAddr, now: int) returns (decision: Decision)
      requires Valid() && source in clients
      modifies clients[source], clients[source].bucket
      ensures Valid() && (View(), decision) == CheckClient(settings, old(View()), source, now)
    {
      decision := clients[source].RequestAgain(settings, now);
      assert View().clients == old(View()).clients[source := clients[source].View()];
    }

    method EvictIfFull(now: int)
      requires Valid()
      modifies this
      ensures Valid() && Entries() <= old(Entries()) && Buckets() <= old(Buckets())
      ensures clients.Keys <= old(clients.Keys)
      ensures View() == MakeRoom(settings, old(View()), now)
    {
      assert View().clients.Keys == clients.Keys;
      if |clients| >= settings.maxEntries {
        if Elapsed(lastForcedSweep, now) >= FORCED_SWEEP_INTERVAL {
          lastForcedSweep := now;
          assert View().clients == old(View()).clients;
          SweepExpired(now);
        }
      }
    }

    method Track(source: IpAddr, now: int)
      requires Valid() && source !in clients
      modifies this`clients
      ensures Valid() && fresh(Entries() - old(Entries())) && fresh(Buckets() - old(Buckets()))
      ensures View() == old(View()).(clients := old(View()).clients[source := NewEntry(settings, now)])
    {
      var entry := new ClientEntry(settings, now);
      clients := clients[source := entry];
      assert View().clients == old(View()).clients[source := entry.View()];
    }

    method AdmitNew(source: IpAddr, now: int) returns (decision: Decision)
      requires Valid() && source !in clients
      modifies this
      ensures Valid() && fresh(Entries() - old(Entries())) && fresh(Buckets() - old(Buckets()))
      ensures (View(), decision) == CheckClient(settings, old(View()), source, now)
    {
      EvictIfFull(now);
      assert View().clients.Keys == clients.Keys;
      if |clients| >= settings.maxEntries {
        return TableFull;
      }
      Track(source, now);
      decision := Allowed;
    }

    method CheckRequest(source: IpAddr, now: int) returns (decision: Decision)
      requires Valid()
      modifies this, global, Entries(), Buckets()
      ensures Valid() && fresh(Entries() - old(Entries())) && fresh(Buckets() - old(Buckets()))
      ensures (View(), decision) == Check(settings, old(View()), source, now)
    {
      if !settings.enabled {
        return Allowed;
      }
      var passed := PassGlobal(now);
      if !passed {
        return LimitedGlobal;
      }
      if source in clients {
        decision := ServeTracked(source, now);
      } else {
        decision := AdmitNew(source, now);
      }
    }

    method ActiveEntries() returns (n: nat)
      ensures n == |View().clients|
    {
      assert View().clients.Keys == clients.Keys;
      n := |clients|;
    }
  }
}

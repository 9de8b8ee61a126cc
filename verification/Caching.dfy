/** The balance cache in front of `getWallet`. */
module Caching {
  import opened Types
  import opened Stores
  import opened Platform

  datatype Cached = Cached(balance: int, expiresAt: Time)

  type Cache = map<WalletId, Cached>

  /** A key answers until its expiry time is reached. */
  function Lookup(c: Cache, w: WalletId, now: Time): Option<int> {
    if w in c && now < c[w].expiresAt then Some(c[w].balance) else None
  }

  function Fill(c: Cache, w: WalletId, balance: int, now: Time, ttl: nat): Cache {
    c[w := Cached(balance, now + ttl)]
  }

  /** One `getWallet` between its awaits: it has read the wallet and asks the cache, or the cache had
      nothing and is to be filled with the balance read. */
  datatype Get =
    | Looking(wallet: WalletId, balance: int)
    | Filling(wallet: WalletId, balance: int)
    | Answered(balance: int)
    | Absent

  function StartGet(s: Store, w: WalletId): Get {
    if w < |s.wallets| then Looking(w, s.wallets[w].balance) else Absent
  }

  function AfterCacheRead(c: Cache, g: Get, now: Time): Get {
    if !g.Looking? then g
    else
      match Lookup(c, g.wallet, now)
      case Some(balance) => Answered(balance)
      case None => Filling(g.wallet, g.balance)
  }

  function AfterCacheFill(g: Get): Get {
    if g.Filling? then Answered(g.balance) else g
  }

  function CacheAfterFill(c: Cache, g: Get, now: Time, ttl: nat): Cache {
    if g.Filling? then Fill(c, g.wallet, g.balance, now, ttl) else c
  }

  /** The platform with its cache and the reads in flight; no write ever invalidates an entry. */
  datatype CachedPlatform = CachedPlatform(system: System, cache: Cache, gets: seq<Get>)

  datatype Event = Act(action: Action) | ReadWallet(wallet: WalletId) | ReadCache(get: nat) | FillCache(get: nat)

  function Next(x: CachedPlatform, e: Event, ttl: nat): CachedPlatform {
    match e
    case Act(a) => x.(system := Step(x.system, a))
    case ReadWallet(w) => x.(gets := x.gets + [StartGet(x.system.store, w)])
    case ReadCache(g) =>
      if |x.gets| <= g then x else x.(gets := x.gets[g := AfterCacheRead(x.cache, x.gets[g], x.system.now)])
    case FillCache(g) =>
      if |x.gets| <= g then x
      else x.(cache := CacheAfterFill(x.cache, x.gets[g], x.system.now, ttl),
              gets := x.gets[g := AfterCacheFill(x.gets[g])])
  }

  function Uncached(y: System): CachedPlatform {
    CachedPlatform(y, map[], [])
  }

  /** A run of the cached platform with all its intermediate states. */
  datatype Timeline = Timeline(states: seq<CachedPlatform>, events: seq<Event>, ttl: nat)
  {
    predicate Genuine() {
      && |states| == |events| + 1
      && forall i :: 0 <= i < |events| ==> states[i + 1] == Next(states[i], events[i], ttl)
    }

    /** It starts with an empty cache and nothing in flight. */
    predicate Fresh() {
      0 < |states| && states[0].cache == map[] && states[0].gets == []
    }
  }

  type Service = x: Timeline | x.Genuine() witness Timeline([Uncached(EMPTY)], [], 0)

  /** Every sequence of events has its timeline. */
  lemma {:induction false} EveryServiceIsTimeline(y: CachedPlatform, events: seq<Event>, ttl: nat) returns (x: Service)
    ensures x.states[0] == y && x.events == events && x.ttl == ttl
  {
    hide Next;
    if events == [] {
      x := Timeline([y], [], ttl);
    } else {
      var n := |events| - 1;
      var before := EveryServiceIsTimeline(y, events[..n], ttl);
      x := Timeline(before.states + [Next(before.states[n], events[n], ttl)], events, ttl);
    }
  }

  // --------------------------------------------- where balances come from

  /** Event `i` is the wallet read of get `g`: it found this balance in the wallet's document. */
  predicate ReadAt(x: Service, i: nat, g: nat, w: WalletId, balance: int) {
    i < |x.events| && x.events[i] == ReadWallet(w) && |x.states[i].gets| == g
    && w < |x.states[i].system.store.wallets| && x.states[i].system.store.wallets[w].balance == balance
  }

  /** Event `j` is the cache fill of get `g`; the entry lives until this time. */
  predicate FilledAt(x: Service, j: nat, g: nat, w: WalletId, balance: int, until: Time) {
    j < |x.events| && x.events[j] == FillCache(g) && g < |x.states[j].gets|
    && x.states[j].gets[g] == Filling(w, balance) && until == x.states[j].system.now + x.ttl
  }

  /** How one event changes the gets. */
  lemma NextGets(x: CachedPlatform, e: Event, ttl: nat, g: nat)
    requires g < |Next(x, e, ttl).gets| && (Next(x, e, ttl).gets[g].Looking? || Next(x, e, ttl).gets[g].Filling?)
    ensures
      var after := Next(x, e, ttl).gets[g];
      || (g < |x.gets| && (x.gets[g].Looking? || x.gets[g].Filling?)
          && x.gets[g].wallet == after.wallet && x.gets[g].balance == after.balance)
      || (e == ReadWallet(after.wallet) && g == |x.gets| && after.wallet < |x.system.store.wallets|
          && after.balance == x.system.store.wallets[after.wallet].balance)
  {
    hide Step;
  }

  /** A get in flight has read its wallet before. */
  lemma {:induction false} GetWasRead(x: Service, n: nat, g: nat) returns (i: nat)
    requires x.Fresh() && n <= |x.events| && g < |x.states[n].gets|
    requires x.states[n].gets[g].Looking? || x.states[n].gets[g].Filling?
    ensures i < n && ReadAt(x, i, g, x.states[n].gets[g].wallet, x.states[n].gets[g].balance)
  {
    hide Next;
    assert x.states[n] == Next(x.states[n - 1], x.events[n - 1], x.ttl);
    NextGets(x.states[n - 1], x.events[n - 1], x.ttl, g);
    if g < |x.states[n - 1].gets| {
      i := GetWasRead(x, n - 1, g);
    } else {
      i := n - 1;
    }
  }

  /** An entry that is new after one event was filled by it. */
  lemma NextCache(x: CachedPlatform, e: Event, ttl: nat, w: WalletId)
    requires w in Next(x, e, ttl).cache && !(w in x.cache && Next(x, e, ttl).cache[w] == x.cache[w])
    ensures
      e.FillCache? && e.get < |x.gets|
      && x.gets[e.get] == Filling(w, Next(x, e, ttl).cache[w].balance)
      && Next(x, e, ttl).cache[w].expiresAt == x.system.now + ttl
  {
    hide Step;
  }

  /** A cache entry was filled before, by a get that had read its balance in the wallet earlier still. */
  lemma {:induction false} EntryWasFilled(x: Service, n: nat, w: WalletId) returns (q: nat, i: nat, j: nat)
    requires x.Fresh() && n <= |x.events| && w in x.states[n].cache
    ensures i < j < n && ReadAt(x, i, q, w, x.states[n].cache[w].balance)
    ensures FilledAt(x, j, q, w, x.states[n].cache[w].balance, x.states[n].cache[w].expiresAt)
  {
    hide Next, ReadAt;
    var before := x.states[n - 1];
    assert x.states[n] == Next(before, x.events[n - 1], x.ttl);
    if w in before.cache && x.states[n].cache[w] == before.cache[w] {
      q, i, j := EntryWasFilled(x, n - 1, w);
    } else {
      NextCache(before, x.events[n - 1], x.ttl, w);
      q, j := x.events[n - 1].get, n - 1;
      i := GetWasRead(x, j, q);
    }
  }

  // ------------------------------------------------------- what is answered

  /** Bounded staleness, over any interleaving of requests, deliveries, sweeps, ticks and reads whose awaits
      lie anywhere: a balance answered from the cache is one that the wallet held when some get `q` read
      it at `i`, and less than one expiry period has passed since that get filled the cache at `j`.  Its
      age is thus less than the expiry period plus the time that get took in between. */
  lemma CachedAnswersAreRecent(x: Service, n: nat, g: nat) returns (q: nat, i: nat, j: nat)
    requires x.Fresh() && n <= |x.events| && g < |x.states[n].gets| && x.states[n].gets[g].Looking?
    requires AfterCacheRead(x.states[n].cache, x.states[n].gets[g], x.states[n].system.now).Answered?
    ensures i < j < n && x.events[j] == FillCache(q)
    ensures
      var answer := AfterCacheRead(x.states[n].cache, x.states[n].gets[g], x.states[n].system.now);
      ReadAt(x, i, q, x.states[n].gets[g].wallet, answer.balance)
    ensures x.states[n].system.now < x.states[j].system.now + x.ttl
    ensures
      var duration := x.states[j].system.now - x.states[i].system.now;
      x.states[n].system.now - x.states[i].system.now < x.ttl + duration
  {
    hide Next, ReadAt;
    q, i, j := EntryWasFilled(x, n, x.states[n].gets[g].wallet);
  }

  /** A balance answered past the cache is one that the wallet held at the get's own read. */
  lemma FreshAnswersAreOwn(x: Service, n: nat, g: nat) returns (i: nat)
    requires x.Fresh() && n <= |x.events| && g < |x.states[n].gets| && x.states[n].gets[g].Filling?
    ensures AfterCacheFill(x.states[n].gets[g]).Answered?
    ensures i < n && ReadAt(x, i, g, x.states[n].gets[g].wallet, AfterCacheFill(x.states[n].gets[g]).balance)
  {
    hide Next, ReadAt;
    i := GetWasRead(x, n, g);
  }

  // ------------------------------------- when expiry alone bounds the age

  predicate HoldsAt(x: Service, m: nat, w: WalletId, balance: int) {
    m < |x.states| && w < |x.states[m].system.store.wallets| && x.states[m].system.store.wallets[w].balance == balance
  }

  /** At `n` the wallet has held this balance less than one expiry period ago. */
  ghost predicate RecentAt(x: Service, n: nat, w: WalletId, balance: int)
    requires n < |x.states|
  {
    exists m :: 0 <= m <= n && HoldsAt(x, m, w, balance) && x.states[n].system.now < x.states[m].system.now + x.ttl
  }

  predicate Continues(x': Service, x: Service) {
    x'.ttl == x.ttl && x.states <= x'.states && x.events <= x'.events
  }

  /** At `n` a get of the wallet is answered from this entry. */
  predicate AnswersFrom(x: Service, n: nat, w: WalletId, balance: int, until: Time) {
    n < |x.states| && w in x.states[n].cache && x.states[n].cache[w] == Cached(balance, until)
    && x.states[n].system.now < until
  }

  /** However the service goes on, the entry never answers a balance older than one expiry period. */
  ghost predicate AlwaysRecent(x: Service, w: WalletId, balance: int, until: Time) {
    forall x': Service, n: nat :: Continues(x', x) && |x.events| <= n && AnswersFrom(x', n, w, balance, until) ==>
      RecentAt(x', n, w, balance)
  }

  /** The wallet held the balance in the tick of event `j`, at the latest when it happened. */
  ghost predicate HeldInTick(x: Service, j: nat, w: WalletId, balance: int)
    requires j < |x.states|
  {
    exists m :: 0 <= m <= j && HoldsAt(x, m, w, balance) && x.states[m].system.now == x.states[j].system.now
  }

  lemma NextClock(x: CachedPlatform, e: Event, ttl: nat)
    ensures x.system.now <= Next(x, e, ttl).system.now
    ensures !e.Act? ==> Next(x, e, ttl).system == x.system
    ensures e == Act(Tick) ==> Next(x, e, ttl) == x.(system := x.system.(now := x.system.now + 1))
  {
    hide Apply, EffectOf, Poll;
  }

  lemma {:induction false} ClockNeverBack(x: Service, i: nat, j: nat)
    requires i <= j <= |x.events|
    ensures x.states[i].system.now <= x.states[j].system.now
    decreases j
  {
    hide Next;
    if i < j {
      ClockNeverBack(x, i, j - 1);
      assert x.states[j] == Next(x.states[j - 1], x.events[j - 1], x.ttl);
      NextClock(x.states[j - 1], x.events[j - 1], x.ttl);
    }
  }

  /** The continuation in which nothing happens for `n` ticks. */
  lemma {:induction false} Idling(x: Service, n: nat) returns (x': Service)
    ensures Continues(x', x) && |x'.events| == |x.events| + n
    ensures
      var last := x.states[|x.events|];
      forall k :: |x.events| <= k <= |x'.events| ==>
        x'.states[k] == last.(system := last.system.(now := last.system.now + k - |x.events|))
  {
    hide Next;
    if n == 0 {
      x' := x;
    } else {
      var before := Idling(x, n - 1);
      var last := before.states[|before.events|];
      NextClock(last, Act(Tick), x.ttl);
      x' := Timeline(before.states + [Next(last, Act(Tick), x.ttl)], before.events + [Act(Tick)], x.ttl);
    }
  }

  lemma FillEnters(x: Service, g: nat, w: WalletId, balance: int, until: Time)
    requires x.events != [] && FilledAt(x, |x.events| - 1, g, w, balance, until)
    ensures
      var before, after := x.states[|x.events| - 1], x.states[|x.events|];
      after.system == before.system && w in after.cache && after.cache[w] == Cached(balance, until)
  {
    var j := |x.events| - 1;
    assert x.states[j + 1] == Next(x.states[j], x.events[j], x.ttl);
  }

  lemma NotAlways(x: Service, x': Service, n: nat, w: WalletId, balance: int, until: Time)
    requires Continues(x', x) && |x.events| <= n && AnswersFrom(x', n, w, balance, until)
    requires !RecentAt(x', n, w, balance)
    ensures !AlwaysRecent(x, w, balance, until)
  {
  }

  lemma HeldThenRecent(x: Service, g: nat, w: WalletId, balance: int, until: Time)
    requires x.events != [] && FilledAt(x, |x.events| - 1, g, w, balance, until)
    requires x.ttl == 0 || HeldInTick(x, |x.events| - 1, w, balance)
    ensures AlwaysRecent(x, w, balance, until)
  {
    hide Next;
    var j := |x.events| - 1;
    forall x': Service, n: nat | Continues(x', x) && |x.events| <= n && AnswersFrom(x', n, w, balance, until)
      ensures RecentAt(x', n, w, balance)
    {
      ClockNeverBack(x', j, n);
      var m :| 0 <= m <= j && HoldsAt(x, m, w, balance) && x.states[m].system.now == x.states[j].system.now;
      assert HoldsAt(x', m, w, balance);
    }
  }

  /** Otherwise idling until just before the expiry makes the entry answer too old a balance. */
  lemma StaleContinuation(x: Service, g: nat, w: WalletId, balance: int, until: Time) returns (x': Service, n: nat)
    requires x.events != [] && FilledAt(x, |x.events| - 1, g, w, balance, until)
    requires 0 < x.ttl && !HeldInTick(x, |x.events| - 1, w, balance)
    ensures Continues(x', x) && |x.events| <= n && AnswersFrom(x', n, w, balance, until)
    ensures !RecentAt(x', n, w, balance)
  {
    hide Next;
    var j := |x.events| - 1;
    FillEnters(x, g, w, balance, until);
    x' := Idling(x, x.ttl - 1);
    n := |x'.events|;
    assert !HoldsAt(x, j, w, balance);
    assert forall m :: j < m <= n ==> !HoldsAt(x', m, w, balance);
    forall m | 0 <= m <= j && HoldsAt(x', m, w, balance)
      ensures x'.states[m].system.now + x.ttl <= x'.states[n].system.now
    {
      assert HoldsAt(x, m, w, balance);
      ClockNeverBack(x, m, j);
    }
  }

  /** The balance that the last event put into the cache: whatever happens later, it is answered less than one
      expiry period after the wallet last held it, exactly when the wallet held it in the tick of the
      fill.  A `getWallet` that fills only with what the wallet still holds would make sure of that. */
  lemma EntryAlwaysRecentIff(x: Service, g: nat, w: WalletId, balance: int, until: Time)
    requires x.events != [] && FilledAt(x, |x.events| - 1, g, w, balance, until)
    ensures AlwaysRecent(x, w, balance, until) <==> x.ttl == 0 || HeldInTick(x, |x.events| - 1, w, balance)
  {
    hide Next, AlwaysRecent, HeldInTick;
    if x.ttl == 0 || HeldInTick(x, |x.events| - 1, w, balance) {
      HeldThenRecent(x, g, w, balance, until);
    } else {
      var x', n := StaleContinuation(x, g, w, balance, until);
      NotAlways(x, x', n, w, balance, until);
    }
  }

  /** Measured from the read that took it, the age stays below one expiry period exactly when the clock has stood
      still between that read and the fill. */
  lemma AgeSinceReadIff(x: Service, i: nat, j: nat, q: nat, w: WalletId, balance: int, until: Time)
    requires i < j && 0 < x.ttl && ReadAt(x, i, q, w, balance) && FilledAt(x, j, q, w, balance, until)
    ensures
      var after := x.states[j + 1].cache;
      (forall at: Time :: Lookup(after, w, at).Some? ==> at < x.states[i].system.now + x.ttl)
      <==> x.states[j].system.now == x.states[i].system.now
  {
    hide Step;
    assert x.states[j + 1] == Next(x.states[j], x.events[j], x.ttl);
    ClockNeverBack(x, i, j);
    assert Lookup(x.states[j + 1].cache, w, until - 1).Some?;
  }

  // ---------------------------------------------------- uninterrupted gets

  /** The balance that an uninterrupted `getWallet` returns; None when the wallet does not exist. */
  function Answer(s: Store, c: Cache, w: WalletId, now: Time): Option<int> {
    if |s.wallets| <= w then None
    else if Lookup(c, w, now).Some? then Lookup(c, w, now)
    else Some(s.wallets[w].balance)
  }

  function AfterGet(s: Store, c: Cache, w: WalletId, now: Time, ttl: nat): Cache {
    if w < |s.wallets| && Lookup(c, w, now).None? then Fill(c, w, s.wallets[w].balance, now, ttl) else c
  }

  /** An uninterrupted `getWallet`, event by event: an unknown wallet is refused, a live entry is answered and left, and
      otherwise the wallet's own balance is answered and kept in the cache for one expiry period.  No other
      wallet's entry changes. */
  lemma GetDoes(x: CachedPlatform, w: WalletId, ttl: nat)
    ensures
      var g, now, wallets := |x.gets|, x.system.now, x.system.store.wallets;
      var z := Next(Next(Next(x, ReadWallet(w), ttl), ReadCache(g), ttl), FillCache(g), ttl);
      && z.system == x.system && |z.gets| == g + 1 && z.gets[..g] == x.gets
      && (|wallets| <= w ==> z.gets[g] == Absent && z.cache == x.cache)
      && (w < |wallets| && w in x.cache && now < x.cache[w].expiresAt ==>
            z.gets[g] == Answered(x.cache[w].balance) && z.cache == x.cache)
      && (w < |wallets| && !(w in x.cache && now < x.cache[w].expiresAt) ==>
            z.gets[g] == Answered(wallets[w].balance)
            && z.cache == x.cache[w := Cached(wallets[w].balance, now + ttl)])
      && (Answer(x.system.store, x.cache, w, now) == if z.gets[g] == Absent then None else Some(z.gets[g].balance))
      && z.cache == AfterGet(x.system.store, x.cache, w, now, ttl)
  {
    hide Step;
  }
}

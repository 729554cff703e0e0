/**
 * The crawler's workers, split at their suspension points, with the per-host state table and the
 * gate in front of the arXiv API.  Each method that changes a Scheduler is one atomic segment, so
 * that an interleaving is any sequence of calls.
 */
module Workers {
  import opened Basics

  const MAX_WORKERS: nat := 24
  const BACKOFF_CAP: nat := 180000
  const PAGE_BACKOFF_CAP: nat := 120000
  const PAGE_BACKOFF_MIN: nat := 1500

  function Max(a: int, b: int): int { if a < b then b else a }
  function Min(a: int, b: int): int { if a < b then a else b }
  function Clamp(x: int, lo: int, hi: int): int { Max(lo, Min(hi, x)) }

  class HostState {
    var nextAllowedAt: int
    var crawlDelayMs: int
    var backoffMs: nat
    var active: nat
    var lastFetchedAt: int

    constructor (crawlDelayMs: int)
      ensures nextAllowedAt == 0 && this.crawlDelayMs == crawlDelayMs && backoffMs == 0 && active == 0
      ensures lastFetchedAt == 0
    {
      nextAllowedAt, backoffMs, active, lastFetchedAt := 0, 0, 0, 0;
      this.crawlDelayMs := crawlDelayMs;
    }
  }

  /** Where a worker is suspended; it keeps its host's state object, also after the table drops it. */
  datatype Phase =
    | AwaitingPolicy(host: HostState)
    | FetchingPage(host: HostState)
    | FetchingArxiv(host: HostState)
    | Settled

  predicate Fetches(p: Phase, h: HostState) {
    (p.FetchingPage? || p.FetchingArxiv?) && p.host == h
  }

  /** The workers in whose request the host's state is charged. */
  function Holders(workers: map<nat, Phase>, h: HostState): set<nat> {
    set w | w in workers && Fetches(workers[w], h)
  }

  function ArxivWorkers(workers: map<nat, Phase>): set<nat> {
    set w | w in workers && workers[w].FetchingArxiv?
  }

  /** One request to the API: when the gate was read, when it was charged, and the backoff then. */
  datatype ApiStart = ApiStart(checkedAt: int, chargedAt: int, backoff: nat)

  function Gap(minDelay: nat, backoff: nat): nat {
    if minDelay < backoff then backoff else minDelay
  }

  /** Each request was let through no earlier than the gap its predecessor had asked for. */
  ghost predicate SpacedOut(starts: seq<ApiStart>, minDelay: nat) {
    && (forall i :: 0 <= i < |starts| ==> starts[i].checkedAt <= starts[i].chargedAt)
    && (forall i :: 0 < i < |starts| ==> starts[i - 1].chargedAt + Gap(minDelay, starts[i - 1].backoff) <= starts[i].checkedAt)
  }

  lemma SpacedOutMore(starts: seq<ApiStart>, minDelay: nat, s: ApiStart)
    requires SpacedOut(starts, minDelay) && s.checkedAt <= s.chargedAt
    requires starts != [] ==>
      starts[|starts| - 1].chargedAt + Gap(minDelay, starts[|starts| - 1].backoff) <= s.checkedAt
    ensures SpacedOut(starts + [s], minDelay)
  {
  }

  /** Any two requests, not just successive ones, are at least the earlier one's gap apart. */
  lemma {:induction false} AllSpacedOut(starts: seq<ApiStart>, minDelay: nat, i: nat, j: nat)
    requires SpacedOut(starts, minDelay) && i < j < |starts|
    ensures starts[i].chargedAt + Gap(minDelay, starts[i].backoff) <= starts[j].checkedAt <= starts[j].chargedAt
    decreases j
  {
    if i + 1 < j { AllSpacedOut(starts, minDelay, i, j - 1); }
  }

  // ---------------------------------------------------------------------------------------
  // Backoff
  // ---------------------------------------------------------------------------------------

  /** Failing doubles a backoff, from `first` on and between two bounds; anything else halves it. */
  function NextBackoff(backoff: nat, failed: bool, least: nat, first: nat, cap: nat): nat {
    if failed then Clamp(Max(least, if backoff > 0 then 2 * backoff else first), least, cap)
    else backoff / 2
  }

  /** After an API answer; `failed` is a 429, a 503 or an exception. */
  function ArxivBackoff(backoff: nat, failed: bool, minDelay: nat): nat {
    NextBackoff(backoff, failed, minDelay, 6000, BACKOFF_CAP)
  }

  function PageBackoff(backoff: nat, failed: bool, first: nat, cap: nat): nat {
    NextBackoff(backoff, failed, PAGE_BACKOFF_MIN, first, cap)
  }

  /** After a request that ends with an exception. */
  function FailureBackoff(arxiv: bool, backoff: nat, minDelay: nat): nat {
    if arxiv then ArxivBackoff(backoff, true, minDelay) else PageBackoff(backoff, true, 3000, BACKOFF_CAP)
  }

  /** The backoff after `n` answers that are all failures, or all none. */
  function BackoffAfter(backoff: nat, failed: bool, least: nat, first: nat, cap: nat, n: nat): nat {
    if n == 0 then backoff
    else NextBackoff(BackoffAfter(backoff, failed, least, first, cap, n - 1), failed, least, first, cap)
  }

  /** Failures in a row double the backoff until it stays at its cap. */
  lemma {:induction false} FailuresDouble(least: nat, first: nat, cap: nat, n: nat)
    requires 0 < least <= cap && 0 < first && n > 0
    ensures BackoffAfter(0, true, least, first, cap, n) == Min(cap, Power(2, n - 1) * Max(least, first))
    ensures least <= BackoffAfter(0, true, least, first, cap, n) <= cap
  {
    if n == 1 {
      assert BackoffAfter(0, true, least, first, cap, 0) == 0;
    } else {
      FailuresDouble(least, first, cap, n - 1);
      DoublePower(n - 2, Max(least, first));
    }
  }

  lemma DoublePower(n: nat, x: nat)
    ensures Power(2, n + 1) * x == 2 * (Power(2, n) * x)
  {
    assert Power(2, n + 1) == 2 * Power(2, n);
    assert (2 * Power(2, n)) * x == 2 * (Power(2, n) * x);
  }

  /** `part` is `whole` divided by `n`, less what is left over. */
  predicate IsQuotient(part: nat, whole: nat, n: nat) {
    n * part <= whole < n * (part + 1)
  }

  /** Answers without failure halve it each time, so that as many as its bits make it zero. */
  lemma {:induction false} SuccessesDecay(backoff: nat, least: nat, first: nat, cap: nat, n: nat)
    ensures IsQuotient(BackoffAfter(backoff, false, least, first, cap, n), backoff, Power(2, n))
    ensures backoff < Power(2, n) ==> BackoffAfter(backoff, false, least, first, cap, n) == 0
  {
    if n > 0 {
      SuccessesDecay(backoff, least, first, cap, n - 1);
      HalveAgain(BackoffAfter(backoff, false, least, first, cap, n - 1), backoff, Power(2, n - 1));
    }
    SmallerThanOne(BackoffAfter(backoff, false, least, first, cap, n), backoff, Power(2, n));
  }

  lemma HalveAgain(part: nat, whole: nat, n: nat)
    requires IsQuotient(part, whole, n)
    ensures IsQuotient(part / 2, whole, 2 * n)
  {
    var half := part / 2;
    assert n * (2 * half) <= n * part && n * (part + 1) <= n * (2 * half + 2);
    assert n * (2 * half) == 2 * n * half && n * (2 * half + 2) == 2 * n * (half + 1);
  }

  lemma SmallerThanOne(part: nat, whole: nat, n: nat)
    requires IsQuotient(part, whole, n)
    ensures whole < n ==> part == 0
  {
    if part > 0 { assert n <= n * part; }
  }

  // ---------------------------------------------------------------------------------------
  // Counting
  // ---------------------------------------------------------------------------------------

  /** Distinct hosts with requests in flight are held by distinct workers. */
  lemma {:induction false} FewActive(hosts: seq<HostState>, workers: map<nat, Phase>, free: set<nat>)
    requires forall i, j :: 0 <= i < j < |hosts| ==> hosts[i] != hosts[j]
    requires forall i :: 0 <= i < |hosts| ==> Holders(workers, hosts[i]) * free != {}
    ensures |hosts| <= |free|
    decreases |hosts|
  {
    if hosts != [] {
      var w :| w in Holders(workers, hosts[0]) * free;
      forall i | 0 <= i < |hosts[1..]| ensures Holders(workers, hosts[1..][i]) * (free - {w}) != {} {
        assert hosts[1..][i] == hosts[i + 1] && hosts[i + 1] != hosts[0];
        var v :| v in Holders(workers, hosts[i + 1]) * free;
        assert v != w && v in Holders(workers, hosts[1..][i]) * (free - {w});
      }
      FewActive(hosts[1..], workers, free - {w});
    }
  }

  predicate Idle(p: Phase) {
    p.Settled? || p.AwaitingPolicy?
  }

  lemma StaysIdle(workers: map<nat, Phase>, w: nat, p: Phase)
    requires (w in workers ==> Idle(workers[w])) && Idle(p)
    ensures forall h :: Holders(workers[w := p], h) == Holders(workers, h)
    ensures ArxivWorkers(workers[w := p]) == ArxivWorkers(workers)
  {
  }

  lemma StartsFetching(workers: map<nat, Phase>, w: nat, p: Phase)
    requires w in workers && Idle(workers[w]) && !Idle(p)
    ensures w !in Holders(workers, p.host) && w !in ArxivWorkers(workers)
    ensures Holders(workers[w := p], p.host) == Holders(workers, p.host) + {w}
    ensures forall h :: h != p.host ==> Holders(workers[w := p], h) == Holders(workers, h)
    ensures ArxivWorkers(workers[w := p]) == ArxivWorkers(workers) + if p.FetchingArxiv? then {w} else {}
  {
  }

  lemma StopsFetching(workers: map<nat, Phase>, w: nat)
    requires w in workers && !Idle(workers[w])
    ensures w in Holders(workers, workers[w].host) && |Holders(workers, workers[w].host)| > 0
    ensures Holders(workers[w := Settled], workers[w].host) == Holders(workers, workers[w].host) - {w}
    ensures forall h :: h != workers[w].host ==> Holders(workers[w := Settled], h) == Holders(workers, h)
    ensures ArxivWorkers(workers[w := Settled]) == ArxivWorkers(workers) - {w}
  {
  }

  lemma Leaves(workers: map<nat, Phase>, w: nat)
    requires w in workers && Idle(workers[w])
    ensures forall h :: Holders(workers - {w}, h) == Holders(workers, h)
    ensures ArxivWorkers(workers - {w}) == ArxivWorkers(workers)
  {
  }

  // ---------------------------------------------------------------------------------------
  // The host table
  // ---------------------------------------------------------------------------------------

  type Entry = (string, HostState)

  ghost predicate DistinctEntries(entries: seq<Entry>) {
    forall i, j :: 0 <= i < j < |entries| ==> entries[i].0 != entries[j].0 && entries[i].1 != entries[j].1
  }

  function TrimTarget(maxEntries: nat): nat {
    if 64 < maxEntries * 9 / 10 then maxEntries * 9 / 10 else 64
  }

  function Position(entries: seq<Entry>, host: string): (i: nat)
    ensures i <= |entries|
    ensures i < |entries| ==> entries[i].0 == host
    ensures i == |entries| ==> forall j :: 0 <= j < |entries| ==> entries[j].0 != host
  {
    if entries == [] || entries[0].0 == host then 0 else 1 + Position(entries[1..], host)
  }

  /** The entries without the first `n` that are not busy. */
  function WithoutIdle(entries: seq<Entry>, busy: set<HostState>, n: nat): seq<Entry> {
    if n == 0 || entries == [] then entries
    else if entries[0].1 in busy then [entries[0]] + WithoutIdle(entries[1..], busy, n)
    else WithoutIdle(entries[1..], busy, n - 1)
  }

  /** Dropping the first idle entry by hand leaves one fewer to drop. */
  lemma {:induction false} WithoutFirstIdle(entries: seq<Entry>, busy: set<HostState>, i: nat, n: nat)
    requires i < |entries| && n > 0 && entries[i].1 !in busy
    requires forall j :: 0 <= j < i ==> entries[j].1 in busy
    ensures WithoutIdle(entries, busy, n) == WithoutIdle(entries[..i] + entries[i + 1..], busy, n - 1)
  {
    var dropped := entries[..i] + entries[i + 1..];
    if i == 0 {
      assert dropped == entries[1..];
    } else {
      WithoutFirstIdle(entries[1..], busy, i - 1, n);
      assert entries[1..][..i - 1] + entries[1..][i..] == dropped[1..];
      assert entries[1..][i - 1] == entries[i];
    }
  }

  lemma WithoutNone(entries: seq<Entry>, busy: set<HostState>, n: nat)
    requires forall j :: 0 <= j < |entries| ==> entries[j].1 in busy
    ensures WithoutIdle(entries, busy, n) == entries
  {
  }

  lemma WithoutIdleKeeps(entries: seq<Entry>, busy: set<HostState>, n: nat)
    ensures var r := WithoutIdle(entries, busy, n);
      && (forall e :: e in r ==> e in entries)
      && (forall e :: e in entries && e.1 in busy ==> e in r)
  {
  }

  /** The fields of a host's state that decide about a request. */
  datatype View = View(nextAllowedAt: int, backoffMs: nat, active: nat)

  datatype RequestKind = Page | ArxivSearch(seedOk: bool)

  /** `refused` requests are in flight already, cooling down, or for a host that opted out. */
  datatype Request = Request(host: string, refused: bool, kind: RequestKind)

  datatype Outcome =
    | NoWorker
    | Refused
    | HostBusy(retryAt: int)
    | HostDelay(readyAt: int)
    | PolicyPending
    | SeedInvalid
    | ApiBusy(retryAt: int)
    | ApiDelay(retryAt: int)
    | ApiStarted

  /** What a lookup of the host finds, an absent host counting as fresh. */
  ghost function ViewIn(entries: seq<Entry>, host: string): View
    reads set e | e in entries :: e.1
  {
    var i := Position(entries, host);
    if i == |entries| then View(0, 0, 0)
    else View(entries[i].1.nextAllowedAt, entries[i].1.backoffMs, entries[i].1.active)
  }

  lemma ViewOfEntry(entries: seq<Entry>, host: string, h: HostState)
    requires DistinctEntries(entries) && (host, h) in entries
    ensures ViewIn(entries, host) == View(h.nextAllowedAt, h.backoffMs, h.active)
  {
  }

  /** The fields of the scheduler that decide about a request. */
  datatype Gate = Gate(maxPerHost: int, defaultDelay: nat, apiActive: nat, apiNextAllowedAt: int)

  /**
   * The clock readings of a worker's first segment: when it looks at its host and at the gate, and
   * when it charges a request to each of them.
   */
  datatype Readings = Readings(host: int, gate: int, hostCharge: int, gateCharge: int)

  predicate InTurn(t: Readings) {
    t.host <= t.gate <= t.hostCharge <= t.gateCharge
  }

  /** The branches of a worker's first segment, given what the host lookup found. */
  function DecideFor(v: View, g: Gate, req: Request, t: Readings): Outcome {
    if v.active >= g.maxPerHost then HostBusy(t.host + Clamp(g.defaultDelay * 7 / 10, 220, 2200))
    else if v.nextAllowedAt > t.host then HostDelay(v.nextAllowedAt)
    else match req.kind
      case Page => PolicyPending
      case ArxivSearch(seedOk) =>
        if !seedOk then SeedInvalid
        else if g.apiActive >= 1 then ApiBusy(t.gate + 350)
        else if g.apiNextAllowedAt > t.gate then ApiDelay(g.apiNextAllowedAt)
        else ApiStarted
  }

  function StartOf(t: Readings, v: View): ApiStart {
    ApiStart(t.gate, t.gateCharge, v.backoffMs)
  }

  class Scheduler {
    const maxEntries: nat
    const minDelay: nat
    const defaultDelay: nat

    /** The host table in insertion order, as iterating over it goes. */
    var entries: seq<Entry>

    var arxivActive: nat
    var arxivNextAllowedAt: int

    var running: bool
    var paused: bool
    var activeWorkers: nat
    var currentConcurrency: int
    var maxPerHost: int

    /** The suspended continuations of the workers that have not been accounted for yet. */
    var workers: map<nat, Phase>

    /** Every state object there ever was, the requests to the API, and the latest clock reading. */
    ghost var known: set<HostState>
    ghost var starts: seq<ApiStart>
    ghost var clock: int

    ghost predicate TableOk()
      reads this
    {
      && 128 <= maxEntries
      && |entries| <= maxEntries + 1
      && DistinctEntries(entries)
      && forall i :: 0 <= i < |entries| ==> entries[i].1 in known
    }

    /** `active` counts the workers whose request is charged to the host, for each state object. */
    ghost predicate CountsOk()
      reads this, known
    {
      && (forall w :: w in workers && !workers[w].Settled? ==> workers[w].host in known)
      && (forall h :: h in known ==> h.active == |Holders(workers, h)|)
      && activeWorkers == |workers.Keys|
      && activeWorkers <= MAX_WORKERS
      && (running ==> currentConcurrency <= MAX_WORKERS)
    }

    /** At most one API request is in flight, `arxivActive` says how many, and starts are spaced out. */
    ghost predicate GateOk()
      reads this
    {
      && arxivActive == |ArxivWorkers(workers)| <= 1
      && SpacedOut(starts, minDelay)
      && (starts != [] ==>
          arxivNextAllowedAt == starts[|starts| - 1].chargedAt + Gap(minDelay, starts[|starts| - 1].backoff))
      && (starts != [] ==> starts[|starts| - 1].chargedAt <= clock)
    }

    ghost predicate Valid()
      reads this, known
    {
      TableOk() && CountsOk() && GateOk()
    }

    constructor (maxEntries: nat, minDelay: nat, defaultDelay: nat, concurrency: int)
      requires 128 <= maxEntries
      ensures Valid() && workers == map[] && entries == [] && starts == [] && !running
      ensures known == {} && clock == 0 && arxivNextAllowedAt == 0 && activeWorkers == 0
      ensures this.minDelay == minDelay && this.defaultDelay == defaultDelay
    {
      this.maxEntries, this.minDelay, this.defaultDelay := maxEntries, minDelay, defaultDelay;
      entries := [];
      arxivActive, arxivNextAllowedAt := 0, 0;
      running, paused := false, false;
      activeWorkers, currentConcurrency, maxPerHost := 0, concurrency, 2;
      workers := map[];
      known, starts, clock := {}, [], 0;
    }

    /** Starting over, possibly while workers of an earlier crawl are still around. */
    method Start(concurrency: int, maxPerHost: int)
      requires Valid()
      modifies this`running, this`paused, this`currentConcurrency, this`maxPerHost
      ensures Valid() && running && !paused
      ensures currentConcurrency == Clamp(concurrency, 1, MAX_WORKERS) && this.maxPerHost == Clamp(maxPerHost, 1, 12)
    {
      running, paused := true, false;
      currentConcurrency := Clamp(concurrency, 1, MAX_WORKERS);
      this.maxPerHost := Clamp(maxPerHost, 1, 12);
    }

    /** Pausing and resuming are refused unless a crawl is running. */
    method Pause() returns (ok: bool)
      requires Valid()
      modifies this`paused
      ensures Valid() && ok == running && paused == (running || old(paused))
    {
      if !running {
        return false;
      }
      paused := true;
      ok := true;
    }

    method Resume() returns (ok: bool)
      requires Valid()
      modifies this`paused
      ensures Valid() && ok == running && paused == (!running && old(paused))
    {
      if !running {
        return false;
      }
      paused := false;
      ok := true;
    }

    method Stop()
      requires Valid()
      modifies this`running, this`paused
      ensures Valid() && !running
    {
      running, paused := false, false;
    }

    // -- The host table --

    ghost function Busy(): set<HostState>
      reads this, known
    {
      set h | h in known && h.active > 0
    }

    /** No entry whose host has a request in flight is among those that `before` had and the table lost. */
    ghost predicate ActiveKept(before: seq<Entry>)
      reads this, set e | e in before :: e.1
    {
      forall e :: e in before && e.1.active > 0 ==> e in entries
    }

    /** No other host has come in, and below its bound the table has lost none. */
    ghost predicate TableGrew(before: seq<Entry>, host: string)
      reads this
    {
      && |entries| <= |before| + 1
      && (forall e :: e in entries ==> e in before || e.0 == host)
      && (|before| <= maxEntries ==> forall e :: e in before ==> e in entries)
    }

    /** Look a host up, making room and a fresh entry for it if it is not there. */
    method HostStateFor(host: string) returns (h: HostState)
      requires Valid()
      modifies this`entries, this`known
      ensures Valid() && (host, h) in entries
      ensures ActiveKept(old(entries))
      ensures TableGrew(old(entries), host)
      ensures forall e :: e in entries ==> e in old(entries) || (e == (host, h) && fresh(h))
      ensures known == old(known) || (fresh(h) && known == old(known) + {h})
      ensures h in known && View(h.nextAllowedAt, h.backoffMs, h.active) == old(ViewIn(entries, host))
    {
      var i := Position(entries, host);
      if i < |entries| {
        return entries[i].1;
      }
      assert forall e :: e in entries ==> e.0 != host;
      if |entries| >= maxEntries {
        Prune();
      }
      h := AddEntry(host);
    }

    method AddEntry(host: string) returns (h: HostState)
      requires Valid() && |entries| <= maxEntries && forall e :: e in entries ==> e.0 != host
      modifies this`entries, this`known
      ensures Valid() && fresh(h) && entries == old(entries) + [(host, h)]
      ensures known == old(known) + {h} && h.active == 0 && h.backoffMs == 0 && h.nextAllowedAt == 0
    {
      h := new HostState(defaultDelay);
      NotHeld(h);
      entries := entries + [(host, h)];
      known := known + {h};
    }

    lemma NotHeld(h: HostState)
      requires CountsOk() && h !in known
      ensures Holders(workers, h) == {}
    {
    }

    /**
     * Make a table that is too big smaller by dropping idle entries, oldest first.  The second pass,
     * which would drop entries in use, never finds anything to do: there are too few workers.
     */
    method Prune()
      requires Valid()
      modifies this`entries
      ensures Valid() && ActiveKept(old(entries))
      ensures forall e :: e in entries ==> e in old(entries)
      ensures |old(entries)| <= maxEntries ==> entries == old(entries)
      ensures |old(entries)| > maxEntries ==>
        && entries == WithoutIdle(old(entries), old(Busy()), |old(entries)| - TrimTarget(maxEntries))
        && |entries| == TrimTarget(maxEntries)
        && 10 * |entries| <= 9 * maxEntries < 10 * (|entries| + 1)
    {
      if |entries| <= maxEntries {
        return;
      }
      WithoutIdleKeeps(entries, Busy(), |entries| - TrimTarget(maxEntries));
      Trim(TrimTarget(maxEntries));
    }

    method Trim(target: nat)
      requires TableOk() && CountsOk() && MAX_WORKERS <= target < |entries|
      modifies this`entries
      ensures TableOk() && |entries| == target
      ensures entries == WithoutIdle(old(entries), old(Busy()), |old(entries)| - target)
    {
      EvictIdle(target);
      if |entries| > target { AllActiveFew(); }
      EvictOldest(target);
    }

    method EvictIdle(target: nat)
      requires TableOk() && target < |entries|
      modifies this`entries
      ensures TableOk() && target <= |entries|
      ensures entries == WithoutIdle(old(entries), old(Busy()), |old(entries)| - target)
      ensures |entries| > target ==> forall j :: 0 <= j < |entries| ==> entries[j].1.active > 0
    {
      ghost var busy := Busy();
      ghost var pruned := WithoutIdle(entries, busy, |entries| - target);
      var i := 0;
      while i < |entries| && |entries| > target
        invariant 0 <= i <= |entries| && target <= |entries| && TableOk()
        invariant forall j :: 0 <= j < i ==> entries[j].1 in busy
        invariant pruned == WithoutIdle(entries, busy, |entries| - target)
        decreases |entries| - i
      {
        if entries[i].1.active > 0 {
          i := i + 1;
        } else {
          WithoutFirstIdle(entries, busy, i, |entries| - target);
          Delete(i);
        }
      }
      if |entries| > target { WithoutNone(entries, busy, |entries| - target); }
    }

    method Delete(i: nat)
      requires TableOk() && i < |entries|
      modifies this`entries
      ensures TableOk() && entries == old(entries)[..i] + old(entries)[i + 1..]
    {
      DropEntry(entries, i);
      entries := entries[..i] + entries[i + 1..];
    }

    /** Entries with requests in flight are at most as many as there are workers. */
    lemma AllActiveFew()
      requires TableOk() && CountsOk()
      requires forall j :: 0 <= j < |entries| ==> entries[j].1.active > 0
      ensures |entries| <= MAX_WORKERS
    {
      var es := entries;
      var hosts := seq(|es|, j requires 0 <= j < |es| => es[j].1);
      forall j | 0 <= j < |hosts| ensures Holders(workers, hosts[j]) * workers.Keys != {} {
        assert hosts[j] == entries[j].1 && hosts[j] in known && hosts[j].active > 0;
        assert |Holders(workers, hosts[j])| > 0;
        assert Holders(workers, hosts[j]) * workers.Keys == Holders(workers, hosts[j]);
      }
      forall i, j | 0 <= i < j < |hosts| ensures hosts[i] != hosts[j] {
        assert entries[i].1 != entries[j].1;
      }
      FewActive(hosts, workers, workers.Keys);
    }

    method EvictOldest(target: nat)
      requires TableOk()
      modifies this`entries
      ensures TableOk()
      ensures entries == if |old(entries)| <= target then old(entries) else old(entries)[|old(entries)| - target..]
    {
      ghost var dropped := 0;
      while |entries| > target
        invariant TableOk() && dropped <= |old(entries)| && entries == old(entries)[dropped..]
        invariant dropped == 0 || |entries| >= target
      {
        assert old(entries)[dropped..][1..] == old(entries)[dropped + 1..];
        assert entries[..0] + entries[1..] == entries[1..];
        Delete(0);
        dropped := dropped + 1;
      }
    }

    /** Discovering a link looks up its host, whatever becomes of the link. */
    method TouchHost(host: string)
      requires Valid()
      modifies this`entries, this`known
      ensures Valid() && ActiveKept(old(entries)) && TableGrew(old(entries), host)
      ensures old(known) <= known && fresh(known - old(known))
    {
      var _ := HostStateFor(host);
    }

    // -- The workers --

    /** A new worker that has done nothing yet. */
    method Enlist(w: nat, now: int)
      requires Valid() && w !in workers && running && activeWorkers < currentConcurrency && clock <= now
      modifies this`workers, this`activeWorkers, this`clock
      ensures Valid() && workers == old(workers)[w := Settled] && clock == now
    {
      StaysIdle(workers, w, Settled);
      assert (workers[w := Settled]).Keys == workers.Keys + {w};
      workers := workers[w := Settled];
      activeWorkers := activeWorkers + 1;
      clock := now;
    }

    /** The worker's turn in the event loop ends without a request. */
    method Suspend(w: nat, p: Phase)
      requires Valid() && w in workers && Idle(workers[w])
      requires p.Settled? || (p.AwaitingPolicy? && p.host in known)
      modifies this`workers
      ensures Valid() && workers == old(workers)[w := p]
    {
      StaysIdle(workers, w, p);
      assert (workers[w := p]).Keys == workers.Keys;
      workers := workers[w := p];
    }

    /** Charge the worker's request to its host. */
    method Charge(w: nat, p: Phase)
      requires TableOk() && CountsOk() && w in workers && Idle(workers[w])
      requires (p.FetchingPage? || p.FetchingArxiv?) && p.host in known
      modifies this`workers, p.host`active
      ensures TableOk() && CountsOk() && workers == old(workers)[w := p]
      ensures p.host.active == old(p.host.active) + 1
      ensures ArxivWorkers(workers) == old(ArxivWorkers(workers)) + if p.FetchingArxiv? then {w} else {}
      ensures w !in old(ArxivWorkers(workers))
    {
      StartsFetching(workers, w, p);
      assert (workers[w := p]).Keys == workers.Keys;
      workers := workers[w := p];
      p.host.active := p.host.active + 1;
    }

    /** The request is over: take the charge back. */
    method Release(w: nat)
      requires TableOk() && CountsOk() && w in workers && (workers[w].FetchingPage? || workers[w].FetchingArxiv?)
      modifies this`workers, workers[w].host`active
      ensures TableOk() && CountsOk() && workers == old(workers)[w := Settled]
      ensures old(workers[w].host.active) > 0
      ensures old(workers[w].host).active == old(workers[w].host.active) - 1
      ensures ArxivWorkers(workers) == old(ArxivWorkers(workers)) - {w}
    {
      var h := workers[w].host;
      StopsFetching(workers, w);
      assert (workers[w := Settled]).Keys == workers.Keys;
      workers := workers[w := Settled];
      h.active := Max(0, h.active - 1);
    }

    /** The worker's API request is charged to its host, whose state was `v`, and to the gate. */
    ghost predicate ApiCharged(w: nat, host: string, t: Readings, v: View)
      reads this, known
    {
      && w in workers && workers[w].FetchingArxiv? && workers[w].host in known
      && (host, workers[w].host) in entries
      && arxivNextAllowedAt == t.gateCharge + Gap(minDelay, v.backoffMs)
      && workers[w].host.backoffMs == v.backoffMs
      && workers[w].host.active == v.active + 1
      && workers[w].host.nextAllowedAt == t.hostCharge + Max(defaultDelay, Gap(minDelay, v.backoffMs))
    }

    /** Where worker `w` is after a round with the given outcome; the others are where they were. */
    ghost predicate Seated(before: map<nat, Phase>, w: nat, host: string, outcome: Outcome)
      reads this
    {
      if outcome.NoWorker? then workers == before
      else
        && w in workers && workers == before[w := workers[w]]
        && (if outcome.PolicyPending? then workers[w].AwaitingPolicy? && (host, workers[w].host) in entries
            else if outcome.ApiStarted? then workers[w].FetchingArxiv? && (host, workers[w].host) in entries
            else workers[w].Settled?)
    }

    /** One round of the scheduler's loop: take on a worker and run it up to its first suspension. */
    method Tick(w: nat, req: Request, t: Readings) returns (outcome: Outcome)
      requires Valid() && w !in workers && clock <= t.host && InTurn(t)
      modifies this`entries, this`known, this`arxivActive, this`arxivNextAllowedAt
      modifies this`activeWorkers, this`workers, this`starts, this`clock, known
      ensures Valid()
      ensures outcome ==
        if !old(HasRoom()) then NoWorker else if req.refused then Refused
        else DecideFor(old(ViewIn(entries, req.host)), old(CurrentGate()), req, t)
      ensures forall e :: e in old(entries) && old(e.1.active) > 0 ==> e in entries
      ensures TableGrew(old(entries), req.host)
      ensures old(known) <= known && fresh(known - old(known))
      ensures clock == if outcome.NoWorker? then old(clock) else t.gateCharge
      ensures activeWorkers == old(activeWorkers) + if outcome.NoWorker? then 0 else 1
      ensures Seated(old(workers), w, req.host, outcome)
      ensures !outcome.ApiStarted? ==> starts == old(starts) && CurrentGate() == old(CurrentGate())
      ensures forall h :: h in old(known) && !(outcome.ApiStarted? && h == workers[w].host) ==> unchanged(h)
      ensures outcome.ApiStarted? ==> starts == old(starts) + [StartOf(t, old(ViewIn(entries, req.host)))]
      ensures outcome.ApiStarted? ==> ApiCharged(w, req.host, t, old(ViewIn(entries, req.host)))
    {
      if !running || paused || activeWorkers >= currentConcurrency {
        return NoWorker;
      }
      ghost var before, v, g := workers, ViewIn(entries, req.host), CurrentGate();
      Enlist(w, t.gateCharge);
      outcome := Begin(w, req, t, before, v, g);
    }

    /** A new worker's first segment. */
    method Begin(w: nat, req: Request, t: Readings, ghost before: map<nat, Phase>, ghost v: View, ghost g: Gate)
        returns (outcome: Outcome)
      requires Valid() && w !in before && workers == before[w := Settled] && clock == t.gateCharge && InTurn(t)
      requires v == ViewIn(entries, req.host) && g == CurrentGate()
      modifies this`entries, this`known, this`arxivActive, this`arxivNextAllowedAt
      modifies this`workers, this`starts, known
      ensures Valid()
      ensures outcome == if req.refused then Refused else DecideFor(v, g, req, t)
      ensures forall e :: e in old(entries) && old(e.1.active) > 0 ==> e in entries
      ensures TableGrew(old(entries), req.host)
      ensures old(known) <= known && fresh(known - old(known))
      ensures Seated(before, w, req.host, outcome)
      ensures !outcome.ApiStarted? ==> starts == old(starts) && CurrentGate() == g
      ensures forall h :: h in old(known) && !(outcome.ApiStarted? && h == workers[w].host) ==> unchanged(h)
      ensures outcome.ApiStarted? ==> starts == old(starts) + [StartOf(t, v)]
      ensures outcome.ApiStarted? ==> ApiCharged(w, req.host, t, v)
    {
      if req.refused {
        return Refused;
      }
      var h := HostStateFor(req.host);
      assert CurrentGate() == g;
      outcome := Proceed(w, req, h, t, before, v, g);
    }

    /** The part of a worker's first segment behind the host lookup. */
    method Proceed(
        w: nat, req: Request, h: HostState, t: Readings, ghost before: map<nat, Phase>, ghost v: View, ghost g: Gate)
        returns (outcome: Outcome)
      requires Valid() && w !in before && workers == before[w := Settled] && clock == t.gateCharge && InTurn(t)
      requires (req.host, h) in entries && h in known && v == View(h.nextAllowedAt, h.backoffMs, h.active) && g == CurrentGate()
      modifies this`workers, this`arxivActive, this`arxivNextAllowedAt, this`starts, h`active, h`nextAllowedAt
      ensures Valid()
      ensures outcome == DecideFor(v, g, req, t)
      ensures Seated(before, w, req.host, outcome)
      ensures !outcome.ApiStarted? ==> starts == old(starts) && CurrentGate() == g && unchanged(h)
      ensures outcome.ApiStarted? ==> starts == old(starts) + [StartOf(t, v)]
      ensures outcome.ApiStarted? ==> workers[w].host == h && ApiCharged(w, req.host, t, v)
    {
      if h.active >= maxPerHost {
        return HostBusy(t.host + Clamp(defaultDelay * 7 / 10, 220, 2200));
      }
      if h.nextAllowedAt > t.host {
        return HostDelay(h.nextAllowedAt);
      }
      match req.kind
      case Page =>
        Suspend(w, AwaitingPolicy(h));
        return PolicyPending;
      case ArxivSearch(seedOk) =>
        if !seedOk {
          return SeedInvalid;
        }
        if arxivActive >= 1 {
          return ApiBusy(t.gate + 350);
        }
        if arxivNextAllowedAt > t.gate {
          return ApiDelay(arxivNextAllowedAt);
        }
        StartApi(w, h, t);
        return ApiStarted;
    }

    /** Let a request through the gate and charge it. */
    method StartApi(w: nat, h: HostState, t: Readings)
      requires Valid() && w in workers && Idle(workers[w]) && h in known
      requires clock == t.gateCharge && InTurn(t)
      requires arxivActive == 0 && arxivNextAllowedAt <= t.gate
      modifies this`workers, this`arxivActive, this`arxivNextAllowedAt, this`starts, h`active, h`nextAllowedAt
      ensures Valid() && workers == old(workers)[w := FetchingArxiv(h)]
      ensures starts == old(starts) + [ApiStart(t.gate, t.gateCharge, h.backoffMs)]
      ensures arxivActive == 1 && arxivNextAllowedAt == t.gateCharge + Gap(minDelay, h.backoffMs)
      ensures h.nextAllowedAt == t.hostCharge + Max(defaultDelay, Gap(minDelay, h.backoffMs))
      ensures h.active == old(h.active) + 1
    {
      assert ArxivWorkers(workers) == {};
      Charge(w, FetchingArxiv(h));
      h.nextAllowedAt := t.hostCharge + Max(Max(defaultDelay, minDelay), h.backoffMs);
      ChargeGate(t, h.backoffMs);
    }

    method ChargeGate(t: Readings, backoff: nat)
      requires |ArxivWorkers(workers)| == 1 && arxivActive == 0 && SpacedOut(starts, minDelay)
      requires clock == t.gateCharge && InTurn(t)
      requires starts != [] ==>
        starts[|starts| - 1].chargedAt + Gap(minDelay, starts[|starts| - 1].backoff) <= t.gate
      modifies this`arxivActive, this`arxivNextAllowedAt, this`starts
      ensures GateOk() && arxivActive == 1 && arxivNextAllowedAt == t.gateCharge + Gap(minDelay, backoff)
      ensures starts == old(starts) + [ApiStart(t.gate, t.gateCharge, backoff)]
    {
      SpacedOutMore(starts, minDelay, ApiStart(t.gate, t.gateCharge, backoff));
      arxivActive := arxivActive + 1;
      arxivNextAllowedAt := t.gateCharge + Max(minDelay, backoff);
      starts := starts + [ApiStart(t.gate, t.gateCharge, backoff)];
    }

    function CurrentGate(): Gate
      reads this
    {
      Gate(maxPerHost, defaultDelay, arxivActive, arxivNextAllowedAt)
    }

    /** Would a proper request of the host to the API be let through? */
    ghost predicate Allows(host: string, t: Readings)
      reads this, set e | e in entries :: e.1
    {
      DecideFor(ViewIn(entries, host), CurrentGate(), Request(host, false, ArxivSearch(true)), t) == ApiStarted
    }

    predicate HasRoom()
      reads this
    {
      running && !paused && activeWorkers < currentConcurrency
    }

    /** The robots policy is there: fetch the page, or give it up. */
    method PolicyArrived(w: nat, allowed: bool, policyDelay: nat, now: int)
      requires Valid() && w in workers && workers[w].AwaitingPolicy? && clock <= now
      modifies this`workers, this`clock
      modifies workers[w].host`crawlDelayMs, workers[w].host`active, workers[w].host`nextAllowedAt
      ensures Valid() && clock == now
      ensures workers == old(workers)[w := if allowed then FetchingPage(old(workers[w].host)) else Settled]
      ensures allowed ==> old(workers[w].host).nextAllowedAt == now + Max(defaultDelay, policyDelay) + old(workers[w].host.backoffMs)
    {
      workers[w].host.crawlDelayMs := Max(defaultDelay, policyDelay);
      clock := now;
      if allowed {
        StartPage(w, workers[w].host, now);
      } else {
        Suspend(w, Settled);
      }
    }

    method StartPage(w: nat, h: HostState, now: int)
      requires Valid() && w in workers && workers[w] == AwaitingPolicy(h)
      modifies this`workers, h`active, h`nextAllowedAt
      ensures Valid() && workers == old(workers)[w := FetchingPage(h)]
      ensures h.nextAllowedAt == now + h.crawlDelayMs + h.backoffMs && h.active == old(h.active) + 1
    {
      Charge(w, FetchingPage(h));
      h.nextAllowedAt := now + h.crawlDelayMs + h.backoffMs;
    }

    /** An answer arrives; a 429 or 503 raises the host's backoff, anything else halves it. */
    method Answered(w: nat, throttled: bool)
      requires Valid() && w in workers && (workers[w].FetchingPage? || workers[w].FetchingArxiv?)
      modifies workers[w].host`backoffMs
      ensures Valid()
      ensures workers[w].FetchingArxiv? ==>
        workers[w].host.backoffMs == ArxivBackoff(old(workers[w].host.backoffMs), throttled, minDelay)
      ensures workers[w].FetchingPage? ==>
        workers[w].host.backoffMs == PageBackoff(old(workers[w].host.backoffMs), throttled, 2500, PAGE_BACKOFF_CAP)
    {
      var h := workers[w].host;
      h.backoffMs :=
        if workers[w].FetchingArxiv? then ArxivBackoff(h.backoffMs, throttled, minDelay)
        else PageBackoff(h.backoffMs, throttled, 2500, PAGE_BACKOFF_CAP);
    }

    /** The request ends, perhaps with an exception, which raises the backoff. */
    method Finished(w: nat, failed: bool)
      requires Valid() && w in workers && (workers[w].FetchingPage? || workers[w].FetchingArxiv?)
      modifies this`workers, this`arxivActive, workers[w].host`backoffMs, workers[w].host`active
      ensures Valid() && workers == old(workers)[w := Settled]
      ensures old(workers[w].host).active == old(workers[w].host.active) - 1
      ensures arxivActive == old(arxivActive) - if old(workers[w]).FetchingArxiv? then 1 else 0
      ensures old(workers[w].host).backoffMs ==
        if failed then FailureBackoff(old(workers[w]).FetchingArxiv?, old(workers[w].host.backoffMs), minDelay)
        else old(workers[w].host.backoffMs)
    {
      var p := workers[w];
      if failed {
        p.host.backoffMs := FailureBackoff(p.FetchingArxiv?, p.host.backoffMs, minDelay);
      }
      assert p.FetchingArxiv? <==> w in ArxivWorkers(workers);
      Release(w);
      if p.FetchingArxiv? {
        arxivActive := Max(0, arxivActive - 1);
      }
    }

    /** The promise of a worker that is through settles, and its place is free again. */
    method Retire(w: nat)
      requires Valid() && w in workers && workers[w].Settled?
      modifies this`workers, this`activeWorkers
      ensures Valid() && workers == old(workers) - {w} && activeWorkers == old(activeWorkers) - 1
    {
      Leaves(workers, w);
      assert (workers - {w}).Keys == workers.Keys - {w};
      workers := workers - {w};
      activeWorkers := activeWorkers - 1;
    }
  }

  lemma DropEntry(entries: seq<Entry>, i: nat)
    requires i < |entries| && DistinctEntries(entries)
    ensures DistinctEntries(entries[..i] + entries[i + 1..])
    ensures forall e :: e in entries <==> e == entries[i] || e in entries[..i] + entries[i + 1..]
  {
  }

  // ---------------------------------------------------------------------------------------
  // The gate and the backoff
  // ---------------------------------------------------------------------------------------

  /**
   * Once a request has started, one of whatever host is let through exactly when none is in flight,
   * its host allows it, and the gap that was due at that last start has passed.
   */
  lemma GateReopens(s: Scheduler, host: string, t: Readings)
    requires s.Valid() && s.starts != []
    ensures var v, last := ViewIn(s.entries, host), s.starts[|s.starts| - 1];
      s.Allows(host, t) <==>
        && ArxivWorkers(s.workers) == {} && v.active < s.maxPerHost
        && v.nextAllowedAt <= t.host && last.chargedAt + Gap(s.minDelay, last.backoff) <= t.gate
  {
    if |ArxivWorkers(s.workers)| == 0 { assert ArxivWorkers(s.workers) == {}; }
  }

  /** The host takes one more request, and its delay is over. */
  predicate HostOpen(v: View, maxPerHost: int, at: int) {
    v.active < maxPerHost && v.nextAllowedAt <= at
  }

  /**
   * What becomes of a request to whatever host, exactly: pages wait for the host alone, searches for
   * the gate as well, and what is put off is put off to a later time.
   */
  lemma DecidedIff(s: Scheduler, req: Request, t: Readings)
    requires s.Valid()
    ensures var v := ViewIn(s.entries, req.host);
      var open, outcome := HostOpen(v, s.maxPerHost, t.host), DecideFor(v, s.CurrentGate(), req, t);
      && (outcome == PolicyPending <==> open && req.kind == Page)
      && (outcome == SeedInvalid <==> open && req.kind == ArxivSearch(false))
      && (outcome == ApiStarted <==>
          open && req.kind == ArxivSearch(true) && ArxivWorkers(s.workers) == {} && s.arxivNextAllowedAt <= t.gate)
      && (outcome.HostBusy? <==> v.active >= s.maxPerHost)
      && (outcome.HostBusy? ==> t.host + 220 <= outcome.retryAt <= t.host + 2200)
      && (forall at :: outcome == HostDelay(at) <==> v.active < s.maxPerHost && t.host < at == v.nextAllowedAt)
      && (forall at :: outcome == ApiBusy(at) <==>
          open && req.kind == ArxivSearch(true) && ArxivWorkers(s.workers) != {} && at == t.gate + 350)
      && (forall at :: outcome == ApiDelay(at) <==>
          open && req.kind == ArxivSearch(true) && ArxivWorkers(s.workers) == {} && t.gate < at == s.arxivNextAllowedAt)
  {
    if |ArxivWorkers(s.workers)| == 0 { assert ArxivWorkers(s.workers) == {}; }
  }

  /**
   * The next request of a host keeps the distance from the last one that the host's backoff by then
   * asks for, whenever from now on it comes, exactly if it cannot come at all for now, or that
   * backoff is no more than the gap already due, or the host's own delay covers it, or it is over.
   */
  lemma CurrentBackoffRespected(s: Scheduler, host: string)
    requires s.Valid() && s.starts != []
    ensures var v, last := ViewIn(s.entries, host), s.starts[|s.starts| - 1];
      (forall t :: InTurn(t) && s.clock <= t.host && s.HasRoom() && s.Allows(host, t) ==>
         last.chargedAt + Gap(s.minDelay, v.backoffMs) <= t.gate)
      <==>
        || !s.HasRoom() || s.arxivActive >= 1 || v.active >= s.maxPerHost
        || v.backoffMs <= Gap(s.minDelay, last.backoff)
        || last.chargedAt + v.backoffMs <= v.nextAllowedAt
        || last.chargedAt + v.backoffMs <= s.clock
  {
    var v := ViewIn(s.entries, host);
    var soonest := Max(s.clock, Max(v.nextAllowedAt, s.arxivNextAllowedAt));
    var t := Readings(soonest, soonest, soonest, soonest);
    if s.HasRoom() && s.arxivActive == 0 && v.active < s.maxPerHost {
      assert InTurn(t) && s.Allows(host, t);
    }
  }

  /** What the table says about a host and another one. */
  ghost predicate Views(s: Scheduler, host: string, v: View, other: string, o: View)
    reads s, set e | e in s.entries :: e.1
  {
    other != host && ViewIn(s.entries, host) == v && ViewIn(s.entries, other) == o
  }

  /** A request's answer comes, its worker is through, and its place is free again. */
  method EndRequest(s: Scheduler, w: nat, throttled: bool, ghost host: string, ghost v: View, ghost other: string, ghost o: View)
    requires s.Valid() && w in s.workers && s.workers[w].FetchingArxiv?
    requires (host, s.workers[w].host) in s.entries && Views(s, host, v, other, o)
    modifies s`workers, s`arxivActive, s`activeWorkers, s.workers[w].host`backoffMs, s.workers[w].host`active
    ensures s.Valid() && s.workers == old(s.workers) - {w} && v.active > 0
    ensures s.activeWorkers == old(s.activeWorkers) - 1 && s.arxivActive == 0
    ensures Views(s, host, View(v.nextAllowedAt, ArxivBackoff(v.backoffMs, throttled, s.minDelay), v.active - 1), other, o)
  {
    ghost var h := s.workers[w].host;
    ViewOfEntry(s.entries, host, h);
    AnswerRequest(s, w, throttled);
    s.Retire(w);
    ViewOfEntry(s.entries, host, h);
  }

  method AnswerRequest(s: Scheduler, w: nat, throttled: bool)
    requires s.Valid() && w in s.workers && s.workers[w].FetchingArxiv?
    modifies s`workers, s`arxivActive, s.workers[w].host`backoffMs, s.workers[w].host`active
    ensures s.Valid() && s.workers == old(s.workers)[w := Settled] && s.arxivActive == 0
    ensures old(s.workers[w].host.active) > 0 && old(s.workers[w].host).active == old(s.workers[w].host.active) - 1
    ensures old(s.workers[w].host).backoffMs == ArxivBackoff(old(s.workers[w].host.backoffMs), throttled, s.minDelay)
  {
    s.Answered(w, throttled);
    s.Finished(w, false);
  }

  function At(now: int): Readings {
    Readings(now, now, now, now)
  }

  /** The round that lets a request to the API through. */
  method BeginRequest(s: Scheduler, w: nat, host: string, now: int, ghost v: View, ghost other: string, ghost o: View)
      returns (ghost h: HostState)
    requires s.Valid() && w !in s.workers && s.clock <= now && s.HasRoom() && |s.entries| < s.maxEntries
    requires s.Allows(host, At(now)) && Views(s, host, v, other, o)
    modifies s, s.known
    ensures s.Valid() && old(s.known) <= s.known && fresh(s.known - old(s.known)) && h in s.known
    ensures s.workers == old(s.workers)[w := FetchingArxiv(h)] && (host, h) in s.entries
    ensures s.activeWorkers == old(s.activeWorkers) + 1 && s.clock == now && |s.entries| <= |old(s.entries)| + 1
    ensures s.running == old(s.running) && s.paused == old(s.paused) && s.maxPerHost == old(s.maxPerHost)
    ensures s.currentConcurrency == old(s.currentConcurrency)
    ensures s.starts == old(s.starts) + [ApiStart(now, now, v.backoffMs)]
    ensures s.arxivNextAllowedAt == now + Gap(s.minDelay, v.backoffMs)
    ensures Views(s, host, View(now + Max(s.defaultDelay, Gap(s.minDelay, v.backoffMs)), v.backoffMs, v.active + 1), other, o)
  {
    ghost var es, i := s.entries, Position(s.entries, other);
    var outcome := s.Tick(w, Request(host, false, ArxivSearch(true)), At(now));
    assert outcome == ApiStarted;
    h := s.workers[w].host;
    ViewOfEntry(s.entries, host, h);
    if i < |es| { ViewOfEntry(s.entries, other, es[i].1); }
  }

  /** A host's state once a request that started at `now` is over. */
  function ViewOnceOver(v: View, now: int, minDelay: nat, defaultDelay: nat, throttled: bool): View {
    View(now + Max(defaultDelay, Gap(minDelay, v.backoffMs)), ArxivBackoff(v.backoffMs, throttled, minDelay), v.active)
  }

  /** One request to the API, from the round that starts it to the end of its worker. */
  method WholeRequest(s: Scheduler, w: nat, host: string, now: int, throttled: bool, ghost v: View, ghost other: string, ghost o: View)
    requires s.Valid() && w !in s.workers && s.clock <= now && s.HasRoom() && |s.entries| < s.maxEntries
    requires s.Allows(host, At(now)) && Views(s, host, v, other, o)
    modifies s, s.known
    ensures s.Valid() && old(s.known) <= s.known && fresh(s.known - old(s.known))
    ensures s.workers == old(s.workers) && s.HasRoom() && s.clock == now && |s.entries| <= |old(s.entries)| + 1
    ensures s.maxPerHost == old(s.maxPerHost) && s.arxivActive == 0
    ensures s.arxivNextAllowedAt == now + Gap(s.minDelay, v.backoffMs)
    ensures s.starts == old(s.starts) + [ApiStart(now, now, v.backoffMs)]
    ensures Views(s, host, ViewOnceOver(v, now, s.minDelay, s.defaultDelay, throttled), other, o)
  {
    ghost var before := s.workers;
    ghost var h := BeginRequest(s, w, host, now, v, other, o);
    assert s.workers[w] == FetchingArxiv(h);
    EndRequest(s, w, throttled, host, ViewIn(s.entries, host), other, o);
    ThereAndBack(before, w, FetchingArxiv(h));
  }

  lemma ThereAndBack(workers: map<nat, Phase>, w: nat, p: Phase)
    requires w !in workers
    ensures workers[w := p] - {w} == workers
  {
  }

  const ARXIV: string := "arxiv.org"
  const EXPORT: string := "export.arxiv.org"

  /** Between requests: none is out, and this is what the two hosts and the gate allow. */
  ghost predicate Quiet(s: Scheduler, n: nat, main: View, mirror: View, gateAt: int)
    reads s, s.known, set e | e in s.entries :: e.1
  {
    && s.Valid() && s.HasRoom() && s.workers == map[] && |s.entries| <= n && 128 <= s.maxEntries
    && s.arxivActive == 0 && s.maxPerHost == 2 && s.minDelay == 3100 && s.defaultDelay == 1200
    && Views(s, ARXIV, main, EXPORT, mirror) && s.arxivNextAllowedAt == gateAt
  }

  method Started() returns (s: Scheduler)
    ensures fresh(s) && fresh(s.known) && Quiet(s, 0, View(0, 0, 0), View(0, 0, 0), 0)
    ensures s.starts == [] && s.clock == 0
  {
    s := new Scheduler(4000, 3100, 1200, 2);
    s.Start(2, 2);
  }

  /**
   * A host answers 429, another one does not, and the first is asked again too soon: 3100 after the
   * last request, although its backoff is 6000 by then.
   */
  method BackoffIgnored() returns (s: Scheduler)
    ensures fresh(s) && s.Valid()
    ensures s.starts == [ApiStart(0, 0, 0), ApiStart(3100, 3100, 0), ApiStart(6200, 6200, 6000)]
  {
    s := Started();
    WholeRequest(s, 0, EXPORT, 0, true, View(0, 0, 0), ARXIV, View(0, 0, 0));
    assert Quiet(s, 1, View(0, 0, 0), View(3100, 6000, 0), 3100);
    WholeRequest(s, 1, ARXIV, 3100, false, View(0, 0, 0), EXPORT, View(3100, 6000, 0));
    assert Quiet(s, 2, View(6200, 0, 0), View(3100, 6000, 0), 6200);
    WholeRequest(s, 2, EXPORT, 6200, false, View(3100, 6000, 0), ARXIV, View(6200, 0, 0));
  }
}

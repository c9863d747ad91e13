// The JWKS cache with its background refresh (internal/auth/jwks_cache.go). The fetches run outside
// the lock, so a Get that misses is two atomic steps, with anything in between; a refresh loop's
// commit and its backoff update are one step each.
module JwksCache {
  import opened Prelude
  import opened Text

  const SECOND: int := 1_000_000_000
  const MAX_BACKOFF: int := 300 * SECOND

  datatype Entry<K> = Entry(jwks: K, fetchedAt: int, expiresAt: int, refreshing: bool, backoff: int)

  /** A Get that missed: its trimmed url and the clock it read before looking. */
  datatype Call = Call(url: string, now: int)

  /** `loops` counts the refresh loops ever started for a url. */
  datatype Cache<K> = Cache(entries: map<string, Entry<K>>, inFlight: map<nat, Call>, loops: map<string, nat>)

  datatype Op<K> =
    | Lookup(caller: nat, url: string, now: int)
    | Fetched(caller: nat, jwks: K)
    | FetchFailed(caller: nat)
    | Refreshed(url: string, jwks: K, now: int)
    | RefreshFailed(url: string)

  // ---------------------------------------------------------------- specification

  function Hit<K>(c: Cache<K>, url: string, now: int): (jwks: Option<K>) {
    var u := TrimSpace(url);
    if u != "" && u in c.entries && now < c.entries[u].expiresAt then Some(c.entries[u].jwks) else None
  }

  function Loops<K>(c: Cache<K>, url: string): (n: nat) {
    if url in c.loops then c.loops[url] else 0
  }

  function Commit<K>(ttl: int, c: Cache<K>, url: string, jwks: K, now: int): (c1: Cache<K>) {
    var e := if url in c.entries then c.entries[url] else Entry(jwks, 0, 0, false, 0);
    var backoff := if e.backoff <= 0 then SECOND else e.backoff;
    c.(entries := c.entries[url := Entry(jwks, now, now + ttl, true, backoff)],
       loops := if e.refreshing then c.loops else c.loops[url := Loops(c, url) + 1])
  }

  function Doubled(backoff: int): (next: int) {
    var b := if backoff * 2 <= 0 then 2 * SECOND else backoff * 2;
    if b > MAX_BACKOFF then MAX_BACKOFF else b
  }

  /** Is there a refresh loop for this url to take a step? */
  predicate Running<K>(c: Cache<K>, url: string) {
    Loops(c, url) > 0
  }

  function Step<K>(ttl: int, c: Cache<K>, op: Op<K>): (c1: Cache<K>) {
    match op
    case Lookup(caller, url, now) =>
      if TrimSpace(url) == "" || caller in c.inFlight || Hit(c, url, now).Some? then c
      else c.(inFlight := c.inFlight[caller := Call(TrimSpace(url), now)])
    case Fetched(caller, jwks) =>
      if caller !in c.inFlight then c
      else
        var call := c.inFlight[caller];
        Commit(ttl, c, call.url, jwks, call.now).(inFlight := c.inFlight - {caller})
    case FetchFailed(caller) => c.(inFlight := c.inFlight - {caller})
    case Refreshed(url, jwks, now) =>
      if !Running(c, url) || url !in c.entries then c
      else
        var e := c.entries[url].(jwks := jwks, fetchedAt := now, expiresAt := now + ttl, backoff := SECOND);
        c.(entries := c.entries[url := e])
    case RefreshFailed(url) =>
      if !Running(c, url) || url !in c.entries then c
      else c.(entries := c.entries[url := c.entries[url].(backoff := Doubled(c.entries[url].backoff))])
  }

  function After<K>(ttl: int, ops: seq<Op<K>>): (c: Cache<K>) {
    if ops == [] then Cache(map[], map[], map[])
    else Step(ttl, After(ttl, ops[..|ops| - 1]), ops[|ops| - 1])
  }

  class JWKSCache<K> {
    const ttl: int
    var entries: map<string, Entry<K>>
    var inFlight: map<nat, Call>
    var loops: map<string, nat>

    constructor (ttl: int)
      ensures this.ttl == if ttl <= 0 then 3600 * SECOND else ttl
      ensures View() == After(this.ttl, [])
    {
      this.ttl := if ttl <= 0 then 3600 * SECOND else ttl;
      entries, inFlight, loops := map[], map[], map[];
    }

    ghost function View(): (view: Cache<K>)
      reads this
    {
      Cache(entries, inFlight, loops)
    }

    /** The first half of Get: a hit, an error for an empty url, or a fetch begun. */
    method GetLookup(caller: nat, url: string, now: int) returns (hit: Option<K>, ok: bool)
      requires caller !in inFlight
      modifies this
      ensures View() == Step(ttl, old(View()), Lookup(caller, url, now))
      ensures hit == Hit(old(View()), url, now) && (ok <==> TrimSpace(url) != "")
    {
      var u := TrimSpace(url);
      if u == "" { return None, false; }
      if u in entries && now < entries[u].expiresAt { return Some(entries[u].jwks), true; }
      inFlight := inFlight[caller := Call(u, now)];
      return None, true;
    }

    /** The second half of Get after a successful fetch. */
    method GetStore(caller: nat, jwks: K)
      requires caller in inFlight
      modifies this
      ensures View() == Step(ttl, old(View()), Fetched(caller, jwks))
    {
      var call := inFlight[caller];
      var e := if call.url in entries then entries[call.url] else Entry(jwks, 0, 0, false, 0);
      e := e.(jwks := jwks, fetchedAt := call.now, expiresAt := call.now + ttl);
      if e.backoff <= 0 { e := e.(backoff := SECOND); }
      if !e.refreshing {
        e := e.(refreshing := true);
        loops := loops[call.url := (if call.url in loops then loops[call.url] else 0) + 1];
      }
      entries := entries[call.url := e];
      inFlight := inFlight - {caller};
    }

    method RefreshStore(url: string, jwks: K, now: int)
      requires Running(View(), url)
      modifies this
      ensures View() == Step(ttl, old(View()), Refreshed(url, jwks, now))
    {
      if url in entries {
        var e := entries[url].(jwks := jwks, fetchedAt := now, expiresAt := now + ttl, backoff := SECOND);
        entries := entries[url := e];
      }
    }

    method RefreshBackoff(url: string)
      requires Running(View(), url)
      modifies this
      ensures View() == Step(ttl, old(View()), Op<K>.RefreshFailed(url))
    {
      if url in entries {
        var b := entries[url].backoff * 2;
        if b <= 0 { b := 2 * SECOND; }
        if b > MAX_BACKOFF { b := MAX_BACKOFF; }
        entries := entries[url := entries[url].(backoff := b)];
      }
    }
  }

  // ---------------------------------------------------------------- what the history says

  datatype Stamped<K> = Stamped(jwks: K, at: int)

  /** The key set most recently committed for a url, by a Get or by its refresh loop, with its stamp. */
  function LastCommit<K>(ttl: int, ops: seq<Op<K>>, url: string): (last: Option<Stamped<K>>) {
    if ops == [] then None
    else
      var init, op := ops[..|ops| - 1], ops[|ops| - 1];
      var c := After(ttl, init);
      if op.Fetched? && op.caller in c.inFlight && c.inFlight[op.caller].url == url then
        Some(Stamped(op.jwks, c.inFlight[op.caller].now))
      else if op.Refreshed? && op.url == url && Running(c, url) then Some(Stamped(op.jwks, op.now))
      else LastCommit(ttl, init, url)
  }

  /** Consecutive failures of the url's refresh loop. Gets in between do not count either way. */
  function Failures<K>(ttl: int, ops: seq<Op<K>>, url: string): (n: nat) {
    if ops == [] then 0
    else
      var init, op := ops[..|ops| - 1], ops[|ops| - 1];
      var running := Running(After(ttl, init), url);
      if op == RefreshFailed(url) && running then Failures(ttl, init, url) + 1
      else if op.Refreshed? && op.url == url && running then 0
      else Failures(ttl, init, url)
  }

  function Pow2(k: nat): (p: nat) {
    if k == 0 then 1 else 2 * Pow2(k - 1)
  }

  /** min(2^k, 300) seconds. */
  function BackoffAfter(k: nat): (backoff: int) {
    if Pow2(k) > 300 then MAX_BACKOFF else Pow2(k) * SECOND
  }

  lemma DoublesUpToFiveMinutes(k: nat)
    ensures Doubled(BackoffAfter(k)) == BackoffAfter(k + 1)
    ensures 0 < BackoffAfter(k)
  {
    Pow2Positive(k);
  }

  lemma {:induction false} Pow2Positive(k: nat)
    ensures Pow2(k) >= 1
  {
    if k > 0 { Pow2Positive(k - 1); }
  }

  /** One loop per cached url, none otherwise; the entry is the last commit, stamped and dated. */
  ghost predicate Consistent<K>(ttl: int, ops: seq<Op<K>>, url: string) {
    var c, last := After(ttl, ops), LastCommit(ttl, ops, url);
    if last.None? then url !in c.entries && Loops(c, url) == 0 && Failures(ttl, ops, url) == 0
    else
      && url in c.entries && Loops(c, url) == 1
      && c.entries[url] == Entry(last.value.jwks, last.value.at, last.value.at + ttl, true,
                                 BackoffAfter(Failures(ttl, ops, url)))
  }

  lemma ConsistentStep<K>(ttl: int, ops: seq<Op<K>>, url: string)
    requires ops != [] && Consistent(ttl, ops[..|ops| - 1], url)
    ensures Consistent(ttl, ops, url)
  {
    var init := ops[..|ops| - 1];
    DoublesUpToFiveMinutes(Failures(ttl, init, url));
    assert BackoffAfter(0) == SECOND;
    hide BackoffAfter, Doubled, Hit, TrimSpace;
  }

  lemma {:induction false} AlwaysConsistent<K>(ttl: int, ops: seq<Op<K>>, url: string)
    ensures Consistent(ttl, ops, url)
    decreases |ops|
  {
    if ops != [] {
      AlwaysConsistent(ttl, ops[..|ops| - 1], url);
      ConsistentStep(ttl, ops, url);
    }
  }

  /** In every interleaving at most one refresh loop is ever started for a url. */
  lemma {:induction false} AtMostOneLoop<K>(ttl: int, ops: seq<Op<K>>, url: string)
    ensures Loops(After(ttl, ops), url) <= 1
    ensures Loops(After(ttl, ops), url) == 1 <==> LastCommit(ttl, ops, url).Some?
  {
    AlwaysConsistent(ttl, ops, url);
  }

  /** A lookup hits exactly if a key set was committed for the trimmed url less than ttl before, and then returns
      the one last committed. */
  lemma HitIffFresh<K>(ttl: int, ops: seq<Op<K>>, url: string, now: int)
    ensures var last := LastCommit(ttl, ops, TrimSpace(url));
            Hit(After(ttl, ops), url, now) ==
            if !AllSpace(url) && last.Some? && now - last.value.at < ttl then Some(last.value.jwks) else None
  {
    hide TrimSpace, AllSpace;
    BlankIff(url);
    AlwaysConsistent(ttl, ops, TrimSpace(url));
  }

  /** A lookup that names a url and does not hit begins a fetch for it, stamped with the clock it read; any other
      leaves everything as it was. */
  lemma FetchBegunIff<K>(ttl: int, ops: seq<Op<K>>, caller: nat, url: string, now: int)
    requires caller !in After(ttl, ops).inFlight
    ensures var c, c1 := After(ttl, ops), After(ttl, ops + [Lookup(caller, url, now)]);
            var last := LastCommit(ttl, ops, TrimSpace(url));
            c1 == if AllSpace(url) || (last.Some? && now - last.value.at < ttl) then c
                  else c.(inFlight := c.inFlight[caller := Call(TrimSpace(url), now)])
  {
    hide TrimSpace, AllSpace;
    var all := ops + [Lookup(caller, url, now)];
    assert all[..|ops|] == ops;
    BlankIff(url);
    HitIffFresh(ttl, ops, url, now);
    hide LastCommit, Hit;
  }

  /** A fetch is under way until it is answered, and an answer ends only its own. */
  lemma AnswerEndsFetch<K>(ttl: int, c: Cache<K>, caller: nat, jwks: K)
    ensures Step(ttl, c, Fetched(caller, jwks)).inFlight == c.inFlight - {caller}
    ensures Step(ttl, c, Op<K>.FetchFailed(caller)) == c.(inFlight := c.inFlight - {caller})
  {
    if caller !in c.inFlight { assert c.inFlight - {caller} == c.inFlight; }
  }

  /** After k consecutive refresh failures the stored backoff is min(2^k, 300) seconds. */
  lemma {:induction false} BackoffIsExponential<K>(ttl: int, ops: seq<Op<K>>, url: string)
    requires url in After(ttl, ops).entries
    ensures var k := Failures(ttl, ops, url);
            After(ttl, ops).entries[url].backoff ==
            if Pow2(k) <= 300 then Pow2(k) * 1_000_000_000 else 300_000_000_000
  {
    AlwaysConsistent(ttl, ops, url);
  }
}

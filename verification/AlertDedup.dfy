// Alert deduplication (internal/web/alerts.go): a map of last accepted times with eviction.
module AlertDedup {
  import opened Prelude
  import opened Text

  const EVICT_ABOVE: nat := 1000

  datatype Alert = Alert(fingerprint: string, at: int)

  type Seen = map<string, int>

  function Evicted(seen: Seen, window: int, now: int): (left: Seen) {
    if |seen| > EVICT_ABOVE then map f | f in seen && now - seen[f] < window :: seen[f] else seen
  }

  /** shouldSkip with or without the eviction. */
  function Check(evict: bool, window: int, seen: Seen, a: Alert): (r: (Seen, bool)) {
    if window <= 0 then (seen, false)
    else if a.fingerprint in seen && a.at - seen[a.fingerprint] < window then (seen, true)
    else
      var s := seen[a.fingerprint := a.at];
      (if evict then Evicted(s, window, a.at) else s, false)
  }

  function After(evict: bool, window: int, alerts: seq<Alert>): (seen: Seen) {
    if alerts == [] then map[]
    else Check(evict, window, After(evict, window, alerts[..|alerts| - 1]), alerts[|alerts| - 1]).0
  }

  predicate Skips(evict: bool, window: int, alerts: seq<Alert>, i: nat)
    requires i < |alerts|
  {
    Check(evict, window, After(evict, window, alerts[..i]), alerts[i]).1
  }

  class AlertPoller {
    const window: int
    var seen: Seen

    constructor (window: int)
      ensures this.window == window && seen == map[]
    {
      this.window, seen := window, map[];
    }

    method ShouldSkip(a: Alert) returns (skip: bool)
      modifies this
      ensures (seen, skip) == Check(true, window, old(seen), a)
    {
      if window <= 0 { return false; }
      if a.fingerprint in seen {
        if a.at - seen[a.fingerprint] < window { return true; }
      }
      seen := seen[a.fingerprint := a.at];
      if |seen| > EVICT_ABOVE {
        ghost var full := seen;
        var todo := seen.Keys;
        while todo != {}
          invariant todo <= seen.Keys
          invariant seen == map f | f in full && (f in todo || full[f] > a.at - window) :: full[f]
        {
          var f :| f in todo;
          todo := todo - {f};
          if a.at - seen[f] >= window { seen := seen - {f}; }
        }
        assert seen == Evicted(full, window, a.at);
      }
      return false;
    }

    /** Handle the alerts with a fingerprint that are not skipped, in order. */
    method RunOnce(alerts: seq<Alert>) returns (handled: seq<Alert>)
      modifies this
      ensures (seen, handled) == Handle(window, old(seen), alerts)
    {
      hide Check, TrimSpace;
      handled := [];
      ghost var all := Handle(window, seen, alerts).1;
      assert alerts[0..] == alerts && [] + all == all;
      for i := 0 to |alerts|
        invariant var (s, rest) := Handle(window, seen, alerts[i..]);
                  Handle(window, old(seen), alerts) == (s, handled + rest)
      {
        assert alerts[i..][1..] == alerts[i + 1..];
        ghost var before := handled;
        var a := Trimmed(alerts[i]);
        if a.fingerprint == "" { continue; }
        var skip := ShouldSkip(a);
        if skip { continue; }
        handled := handled + [a];
        assert before + ([a] + Handle(window, seen, alerts[i + 1..]).1) ==
               handled + Handle(window, seen, alerts[i + 1..]).1;
      }
      assert handled + [] == handled;
    }
  }

  function Trimmed(a: Alert): (t: Alert) {
    a.(fingerprint := TrimSpace(a.fingerprint))
  }

  function Handle(window: int, seen: Seen, alerts: seq<Alert>): (r: (Seen, seq<Alert>))
    decreases |alerts|
  {
    if alerts == [] then (seen, [])
    else
      var a := Trimmed(alerts[0]);
      if a.fingerprint == "" then Handle(window, seen, alerts[1..])
      else
        var (s, skip) := Check(true, window, seen, a);
        var (s1, rest) := Handle(window, s, alerts[1..]);
        (s1, if skip then rest else [a] + rest)
  }

  /** The alerts that reach shouldSkip. */
  function Candidates(alerts: seq<Alert>): (with: seq<Alert>) {
    if alerts == [] then []
    else
      var a, rest := Trimmed(alerts[0]), Candidates(alerts[1..]);
      if a.fingerprint == "" then rest else [a] + rest
  }

  /** The alerts from position `from` on that are not skipped. */
  function Kept(window: int, all: seq<Alert>, from: nat): (kept: seq<Alert>)
    decreases |all| - from
  {
    if from >= |all| then []
    else (if Skips(true, window, all, from) then [] else [all[from]]) + Kept(window, all, from + 1)
  }

  lemma AfterSnoc(window: int, past: seq<Alert>, a: Alert)
    ensures After(true, window, past + [a]) == Check(true, window, After(true, window, past), a).0
  {
    assert (past + [a])[..|past|] == past;
  }

  lemma KeptStep(window: int, past: seq<Alert>, a: Alert, rest: seq<Alert>)
    ensures var all := past + [a] + rest;
            var later := Kept(window, all, |past| + 1);
            Kept(window, all, |past|) ==
            if Check(true, window, After(true, window, past), a).1 then later else [a] + later
  {
    var all := past + [a] + rest;
    assert all[..|past|] == past && all[|past|] == a;
  }

  /** A poll after the alerts `past` handles exactly the candidates that the dedup run over everything
      seen so far does not skip. */
  lemma {:induction false} HandlesWhatIsNotSkipped(window: int, past: seq<Alert>, alerts: seq<Alert>)
    ensures var all := past + Candidates(alerts);
            Handle(window, After(true, window, past), alerts) == (After(true, window, all), Kept(window, all, |past|))
    decreases |alerts|
  {
    if alerts == [] {
      assert past + [] == past;
    } else {
      hide *;
      var a, rest := Trimmed(alerts[0]), Candidates(alerts[1..]);
      HandleStep(window, After(true, window, past), alerts);
      CandidatesStep(past, alerts);
      if a.fingerprint == "" {
        HandlesWhatIsNotSkipped(window, past, alerts[1..]);
      } else {
        AfterSnoc(window, past, a);
        KeptStep(window, past, a, rest);
        HandlesWhatIsNotSkipped(window, past + [a], alerts[1..]);
        assert |past + [a]| == |past| + 1;
      }
    }
  }

  lemma HandleStep(window: int, seen: Seen, alerts: seq<Alert>)
    requires alerts != []
    ensures var a := Trimmed(alerts[0]);
            var (s, skip) := Check(true, window, seen, a);
            Handle(window, seen, alerts) ==
            if a.fingerprint == "" then Handle(window, seen, alerts[1..])
            else
              var (s1, rest) := Handle(window, s, alerts[1..]);
              (s1, if skip then rest else [a] + rest)
  {
  }

  lemma CandidatesStep(past: seq<Alert>, alerts: seq<Alert>)
    requires alerts != []
    ensures var a, rest := Trimmed(alerts[0]), Candidates(alerts[1..]);
            past + Candidates(alerts) == if a.fingerprint == "" then past + rest else past + [a] + rest
  {
    hide Trimmed;
    var a, rest := Trimmed(alerts[0]), Candidates(alerts[1..]);
    assert Candidates(alerts) == if a.fingerprint == "" then rest else [a] + rest;
    hide Candidates;
    Assoc(past, [a], rest);
  }

  ghost predicate Ordered(alerts: seq<Alert>) {
    forall i, j :: 0 <= i < j < |alerts| ==> alerts[i].at <= alerts[j].at
  }

  /** The evicting map is the full one without some entries that have run out. */
  ghost predicate Agree(window: int, small: Seen, full: Seen, now: int) {
    && (forall f :: f in small ==> f in full && small[f] == full[f])
    && (forall f :: f in full && f !in small ==> now - full[f] >= window)
  }

  lemma {:induction false} AgreeAfter(window: int, alerts: seq<Alert>, now: int)
    requires window > 0 && Ordered(alerts) && (alerts != [] ==> alerts[|alerts| - 1].at <= now)
    ensures Agree(window, After(true, window, alerts), After(false, window, alerts), now)
    decreases |alerts|
  {
    if alerts != [] {
      var n := |alerts| - 1;
      assert forall j :: 0 <= j < n ==> alerts[..n][j] == alerts[j];
      AgreeAfter(window, alerts[..n], alerts[n].at);
    }
  }

  /** Eviction never changes a skip decision. */
  lemma EvictionInvisible(window: int, alerts: seq<Alert>, i: nat)
    requires i < |alerts| && Ordered(alerts)
    ensures Skips(true, window, alerts, i) == Skips(false, window, alerts, i)
  {
    if window > 0 {
      assert forall j :: 0 <= j < i ==> alerts[..i][j] == alerts[j];
      AgreeAfter(window, alerts[..i], alerts[i].at);
    }
  }

  /** Without eviction an accepted alert stays on record until the next one of its fingerprint. */
  lemma {:induction false} AcceptedOnRecord(window: int, alerts: seq<Alert>, i: nat)
    requires i < |alerts| && window > 0 && Ordered(alerts) && !Skips(false, window, alerts, i)
    ensures var full := After(false, window, alerts);
            alerts[i].fingerprint in full && full[alerts[i].fingerprint] >= alerts[i].at
    decreases |alerts|
  {
    var n := |alerts| - 1;
    if i < n {
      assert alerts[..n][..i] == alerts[..i] && alerts[..n][i] == alerts[i];
      assert forall j :: 0 <= j < n ==> alerts[..n][j] == alerts[j];
      AcceptedOnRecord(window, alerts[..n], i);
    }
  }

  /** Accepted alerts with one fingerprint are at least the window apart. */
  lemma AcceptedAreWindowApart(window: int, alerts: seq<Alert>, i: nat, j: nat)
    requires i < j < |alerts| && window > 0 && Ordered(alerts)
    requires alerts[i].fingerprint == alerts[j].fingerprint
    requires !Skips(true, window, alerts, i) && !Skips(true, window, alerts, j)
    ensures alerts[j].at - alerts[i].at >= window
  {
    EvictionInvisible(window, alerts, i);
    EvictionInvisible(window, alerts, j);
    assert alerts[..j][..i] == alerts[..i] && alerts[..j][i] == alerts[i];
    AcceptedOnRecord(window, alerts[..j], i);
  }

  // ---------------------------------------------------------------- exactly which alerts are skipped

  /** Without eviction, what is on record for a fingerprint is an alert that was accepted. */
  lemma {:induction false} RecordWasAccepted(window: int, alerts: seq<Alert>, f: string) returns (j: nat)
    requires window > 0 && f in After(false, window, alerts)
    ensures j < |alerts| && alerts[j].fingerprint == f && !Skips(false, window, alerts, j)
    ensures alerts[j].at == After(false, window, alerts)[f]
    decreases |alerts|
  {
    var n := |alerts| - 1;
    if !Skips(false, window, alerts, n) && alerts[n].fingerprint == f {
      j := n;
    } else {
      j := RecordWasAccepted(window, alerts[..n], f);
      assert alerts[..n][..j] == alerts[..j];
    }
  }

  /** An alert is skipped exactly if one with its fingerprint was accepted less than the window before it. */
  lemma SkippedIff(window: int, alerts: seq<Alert>, i: nat)
    requires i < |alerts| && Ordered(alerts)
    ensures Skips(true, window, alerts, i) <==>
            exists j :: 0 <= j < i && alerts[j].fingerprint == alerts[i].fingerprint
                        && !Skips(true, window, alerts, j) && alerts[i].at - alerts[j].at < window
  {
    EvictionInvisible(window, alerts, i);
    var past, f := alerts[..i], alerts[i].fingerprint;
    assert forall k :: 0 <= k < i ==> past[k] == alerts[k] && past[..k] == alerts[..k];
    if Skips(true, window, alerts, i) {
      var j := RecordWasAccepted(window, past, f);
      EvictionInvisible(window, alerts, j);
    }
    if j :| 0 <= j < i && alerts[j].fingerprint == f
            && !Skips(true, window, alerts, j) && alerts[i].at - alerts[j].at < window {
      EvictionInvisible(window, alerts, j);
      assert alerts[j].at <= alerts[i].at && !Skips(false, window, past, j);
      AcceptedOnRecord(window, past, j);
    }
  }

  /** When more than a thousand fingerprints are on record after an accepted alert, exactly those are dropped whose
      alert was at least the window ago; otherwise none is. */
  lemma EvictionDropsExactly(window: int, seen: Seen, a: Alert, f: string)
    requires window > 0 && !Check(true, window, seen, a).1 && f != a.fingerprint
    ensures var seen1 := Check(true, window, seen, a).0;
            && (f in seen1 <==> f in seen && !(|seen.Keys + {a.fingerprint}| > 1000 && a.at - seen[f] >= window))
            && (f in seen1 ==> seen1[f] == seen[f]) && a.fingerprint in seen1 && seen1[a.fingerprint] == a.at
  {
    assert seen[a.fingerprint := a.at].Keys == seen.Keys + {a.fingerprint};
  }

  /** The candidates are exactly the alerts whose fingerprint is not blank, trimmed, each once and in order: one
      alert is such a candidate or none, and the candidates of a list are those of its parts. */
  lemma {:induction false} CandidatesAreFingerprinted(a: Alert, past: seq<Alert>, rest: seq<Alert>)
    ensures Candidates([a]) == if AllSpace(a.fingerprint) then [] else [Alert(TrimSpace(a.fingerprint), a.at)]
    ensures Candidates(past + rest) == Candidates(past) + Candidates(rest)
    decreases |past|
  {
    hide TrimSpace, AllSpace;
    BlankIff(a.fingerprint);
    assert [a][1..] == [] && Candidates([]) == [];
    if past == [] {
      assert past + rest == rest;
    } else {
      CandidatesAreFingerprinted(a, past[1..], rest);
      assert (past + rest)[1..] == past[1..] + rest;
    }
  }
}

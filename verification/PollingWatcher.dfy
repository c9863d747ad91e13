// The incremental snapshot feed (internal/context/collectors/polling_watcher.go) and its ingestion
// (internal/context/service.go). Nodes and edges are treated alike: an element has an id and a body.
module PollingWatcher {
  import opened Prelude

  datatype Element = Element(id: string, body: string)
  datatype Snapshot = Snapshot(nodes: seq<Element>, edges: seq<Element>)

  type Store = map<string, Element>

  // ---------------------------------------------------------------- the difference

  /** The non-empty ids of a list. */
  function Ids(es: seq<Element>): (ids: set<string>) {
    set e | e in es && e.id != "" :: e.id
  }

  /** The elements whose id is neither empty nor known, in order. */
  function Fresh(known: set<string>, next: seq<Element>): (added: seq<Element>) {
    if next == [] then []
    else
      var n := |next| - 1;
      Fresh(known, next[..n]) + if next[n].id == "" || next[n].id in known then [] else [next[n]]
  }

  function Diff(prev: Snapshot, next: Snapshot): (d: Snapshot) {
    Snapshot(Fresh(Ids(prev.nodes), next.nodes), Fresh(Ids(prev.edges), next.edges))
  }

  method DiffElements(prev: seq<Element>, next: seq<Element>) returns (out: seq<Element>)
    ensures out == Fresh(Ids(prev), next)
  {
    var known: set<string> := {};
    for i := 0 to |prev|
      invariant known == Ids(prev[..i])
    {
      assert prev[..i + 1] == prev[..i] + [prev[i]];
      if prev[i].id != "" { known := known + {prev[i].id}; }
    }
    assert prev[..|prev|] == prev;
    out := [];
    for i := 0 to |next|
      invariant out == Fresh(known, next[..i])
    {
      assert next[..i + 1][..i] == next[..i];
      if next[i].id == "" { continue; }
      if next[i].id in known { continue; }
      out := out + [next[i]];
    }
    assert next[..|next|] == next;
  }

  class Watcher {
    var last: Snapshot
    var sent: seq<Snapshot>

    constructor ()
      ensures last == Snapshot([], []) && sent == []
    {
      last, sent := Snapshot([], []), [];
    }

    /** One turn of Watch's loop; a failed poll changes nothing. */
    method Poll(snap: Option<Snapshot>)
      modifies this
      ensures (last, sent) == Polled(old(last), old(sent), snap)
    {
      if snap.Some? {
        var nodes := DiffElements(last.nodes, snap.value.nodes);
        var edges := DiffElements(last.edges, snap.value.edges);
        if |nodes| > 0 || |edges| > 0 {
          sent := sent + [Snapshot(nodes, edges)];
        }
        last := snap.value;
      }
    }
  }

  function Polled(last: Snapshot, sent: seq<Snapshot>, snap: Option<Snapshot>): (r: (Snapshot, seq<Snapshot>)) {
    if snap.None? then (last, sent)
    else
      var d := Diff(last, snap.value);
      (snap.value, if d.nodes == [] && d.edges == [] then sent else sent + [d])
  }

  function After(polls: seq<Option<Snapshot>>): (r: (Snapshot, seq<Snapshot>)) {
    if polls == [] then (Snapshot([], []), [])
    else var (last, sent) := After(polls[..|polls| - 1]); Polled(last, sent, polls[|polls| - 1])
  }

  // ---------------------------------------------------------------- ingestion

  /** Upsert in order what the store accepts; elements without an id are not stored. */
  function Ingest(store: Store, es: seq<Element>): (store1: Store) {
    if es == [] then store
    else
      var n := |es| - 1;
      var s := Ingest(store, es[..n]);
      if es[n].id == "" then s else s[es[n].id := es[n]]
  }

  function IngestAll(lists: seq<seq<Element>>): (store: Store) {
    if lists == [] then map[] else Ingest(IngestAll(lists[..|lists| - 1]), lists[|lists| - 1])
  }

  function NodesOf(snaps: seq<Snapshot>): (lists: seq<seq<Element>>) {
    seq(|snaps|, i requires 0 <= i < |snaps| => snaps[i].nodes)
  }

  function EdgesOf(snaps: seq<Snapshot>): (lists: seq<seq<Element>>) {
    seq(|snaps|, i requires 0 <= i < |snaps| => snaps[i].edges)
  }

  /** The snapshots of the successful polls. */
  function Successes(polls: seq<Option<Snapshot>>): (snaps: seq<Snapshot>) {
    if polls == [] then []
    else
      var n := |polls| - 1;
      Successes(polls[..n]) + if polls[n].Some? then [polls[n].value] else []
  }

  // ---------------------------------------------------------------- one element kind

  /** The last element of a list with a given id. */
  function LastWith(es: seq<Element>, id: string): (e: Option<Element>) {
    if es == [] then None
    else if es[|es| - 1].id == id then Some(es[|es| - 1]) else LastWith(es[..|es| - 1], id)
  }

  lemma {:induction false} LastWithIff(es: seq<Element>, id: string)
    ensures id != "" ==> (LastWith(es, id).Some? <==> id in Ids(es))
    ensures LastWith(es, id).Some? ==> LastWith(es, id).value.id == id
  {
    if es != [] {
      var n := |es| - 1;
      LastWithIff(es[..n], id);
      assert es == es[..n] + [es[n]];
    }
  }

  lemma {:induction false} IngestLookup(store: Store, es: seq<Element>, id: string)
    requires id != ""
    ensures var s := Ingest(store, es);
            if LastWith(es, id).Some? then id in s && s[id] == LastWith(es, id).value
            else (id in s <==> id in store) && (id in s ==> s[id] == store[id])
  {
    if es != [] { IngestLookup(store, es[..|es| - 1], id); }
  }

  lemma {:induction false} FreshLookup(known: set<string>, es: seq<Element>, id: string)
    requires id != ""
    ensures LastWith(Fresh(known, es), id) == if id in known then None else LastWith(es, id)
  {
    if es != [] {
      var n := |es| - 1;
      FreshLookup(known, es[..n], id);
      var f := Fresh(known, es[..n]);
      assert (f + [es[n]])[..|f|] == f && f + [] == f;
    }
  }

  /** The elements sent for a series of snapshot lists: each against the one before it. */
  function Deltas(lists: seq<seq<Element>>): (deltas: seq<seq<Element>>)
    ensures |deltas| == |lists|
  {
    if lists == [] then []
    else
      var n := |lists| - 1;
      Deltas(lists[..n]) + [Fresh(if n == 0 then {} else Ids(lists[n - 1]), lists[n])]
  }

  /** `id` is in list j and was not in the list before it. */
  ghost predicate Appears(lists: seq<seq<Element>>, j: nat, id: string) {
    j < |lists| && id in Ids(lists[j]) && (j > 0 ==> id !in Ids(lists[j - 1]))
  }

  /** The latest list in which `id` appeared. */
  ghost predicate LatestAppearance(lists: seq<seq<Element>>, j: nat, id: string) {
    Appears(lists, j, id) && forall k :: j < k < |lists| ==> !Appears(lists, k, id)
  }

  /** The latest list that contains `id`. */
  ghost predicate LatestPresence(lists: seq<seq<Element>>, k: nat, id: string) {
    k < |lists| && id in Ids(lists[k]) && forall i :: k < i < |lists| ==> id !in Ids(lists[i])
  }

  ghost predicate EverSeen(lists: seq<seq<Element>>, id: string) {
    exists i :: 0 <= i < |lists| && id in Ids(lists[i])
  }

  /** Ingesting every list in full stores each id ever seen, with the record of its latest presence. */
  lemma {:induction false} FullRecords(lists: seq<seq<Element>>, id: string) returns (k: nat)
    requires id != ""
    ensures id in IngestAll(lists) <==> EverSeen(lists, id)
    ensures id in IngestAll(lists) ==>
              LatestPresence(lists, k, id) && LastWith(lists[k], id) == Some(IngestAll(lists)[id])
    decreases |lists|
  {
    k := 0;
    if lists != [] {
      var n := |lists| - 1;
      var k0 := FullRecords(lists[..n], id);
      IngestLookup(IngestAll(lists[..n]), lists[n], id);
      LastWithIff(lists[n], id);
      assert forall i :: 0 <= i < n ==> lists[..n][i] == lists[i];
      k := if id in Ids(lists[n]) then n else k0;
    }
  }

  lemma AppearsSnoc(lists: seq<seq<Element>>, id: string, j0: nat)
    requires lists != []
    ensures var n := |lists| - 1;
            && (Appears(lists, n, id) ==> LatestAppearance(lists, n, id))
            && (!Appears(lists, n, id) && LatestAppearance(lists[..n], j0, id) ==> LatestAppearance(lists, j0, id))
  {
    var n := |lists| - 1;
    assert forall i :: 0 <= i < n ==> lists[..n][i] == lists[i];
    if !Appears(lists, n, id) && LatestAppearance(lists[..n], j0, id) {
      forall k | j0 < k < |lists| ensures !Appears(lists, k, id) {
        if k < n { assert !Appears(lists[..n], k, id); }
      }
    }
  }

  /** Ingesting only the differences stores each id ever seen, with the record of the list in which it
      most recently appeared anew. */
  lemma {:induction false} DeltaRecords(lists: seq<seq<Element>>, id: string) returns (j: nat)
    requires id != ""
    ensures id in IngestAll(Deltas(lists)) <==> EverSeen(lists, id)
    ensures id in IngestAll(Deltas(lists)) ==>
              LatestAppearance(lists, j, id) && LastWith(lists[j], id) == Some(IngestAll(Deltas(lists))[id])
    decreases |lists|
  {
    j := 0;
    if lists != [] {
      var n := |lists| - 1;
      var init := lists[..n];
      var j0 := DeltaRecords(init, id);
      var known: set<string> := if n == 0 then {} else Ids(lists[n - 1]);
      DeltasSnoc(lists, known);
      IngestLookup(IngestAll(Deltas(init)), Fresh(known, lists[n]), id);
      FreshLookup(known, lists[n], id);
      LastWithIff(lists[n], id);
      AppearsSnoc(lists, id, j0);
      hide Fresh, Ids, Deltas, Ingest, IngestAll, LastWith, LatestAppearance;
      assert forall i :: 0 <= i < n ==> init[i] == lists[i];
      j := if Appears(lists, n, id) then n else j0;
      if id in known { assert EverSeen(init, id); }
    }
  }

  lemma DeltasSnoc(lists: seq<seq<Element>>, known: set<string>)
    requires lists != [] && known == if |lists| == 1 then {} else Ids(lists[|lists| - 2])
    ensures var n := |lists| - 1;
            IngestAll(Deltas(lists)) == Ingest(IngestAll(Deltas(lists[..n])), Fresh(known, lists[n]))
  {
    var n, d := |lists| - 1, Deltas(lists);
    assert d[..|d| - 1] == Deltas(lists[..n]) && d[|d| - 1] == Fresh(known, lists[n]);
  }

  /** The two stores hold the same ids. A record differs exactly if it changed between the list in which
      its id last appeared anew and the list in which it was last present. */
  lemma StoresCompared(lists: seq<seq<Element>>, id: string) returns (j: nat, k: nat)
    requires id != ""
    ensures id in IngestAll(Deltas(lists)) <==> id in IngestAll(lists)
    ensures id in IngestAll(lists) ==>
              && LatestAppearance(lists, j, id) && LatestPresence(lists, k, id)
              && (IngestAll(Deltas(lists))[id] == IngestAll(lists)[id] <==>
                  LastWith(lists[j], id) == LastWith(lists[k], id))
  {
    j := DeltaRecords(lists, id);
    k := FullRecords(lists, id);
  }

  /** A record changed in place stays stale: two snapshots with one id and two bodies. */
  lemma StaleRecord(was: Element, now: Element)
    requires was == Element("a", "was") && now == Element("a", "now")
    ensures IngestAll(Deltas([[was], [now]])) == map["a" := was]
    ensures IngestAll([[was], [now]]) == map["a" := now]
  {
    var first, both := [[was]], [[was], [now]];
    assert both[..1] == first && first[..0] == [];
    assert Ids([was]) == {"a"};
    assert [was][..0] == [] && [now][..0] == [];
    assert Fresh({}, [was]) == [was] && Fresh({"a"}, [now]) == [];
    assert Deltas(first) == [[was]];
    assert Deltas(both) == [[was], []];
    assert Ingest(map[], [was]) == map["a" := was];
    IngestAllSnoc([], [was]);
    assert [] + [[was]] == first;
    IngestAllSnoc(first, []);
    assert Deltas(both) == first + [[]];
  }

  // ---------------------------------------------------------------- ingestions that are cut short

  /** What the store took of each list: an ingestion ends at the first element that is refused or fails. */
  function Taken(lists: seq<seq<Element>>, cuts: seq<nat>): (taken: seq<seq<Element>>)
    requires |cuts| == |lists|
    ensures |taken| == |lists|
  {
    seq(|lists|, i requires 0 <= i < |lists| => if cuts[i] < |lists[i]| then lists[i][..cuts[i]] else lists[i])
  }

  lemma {:induction false} FreshIds(known: set<string>, es: seq<Element>)
    ensures Ids(Fresh(known, es)) == Ids(es) - known
  {
    if es != [] {
      var n := |es| - 1;
      FreshIds(known, es[..n]);
      assert es == es[..n] + [es[n]];
      assert Ids(es) == Ids(es[..n]) + Ids([es[n]]) by { IdsAppend(es[..n], [es[n]]); }
      var f := Fresh(known, es[..n]);
      var last := if es[n].id == "" || es[n].id in known then [] else [es[n]];
      IdsAppend(f, last);
    }
  }

  lemma IdsAppend(a: seq<Element>, b: seq<Element>)
    ensures Ids(a + b) == Ids(a) + Ids(b)
  {
  }

  lemma {:induction false} DeltaAt(lists: seq<seq<Element>>, j: nat)
    requires j < |lists|
    ensures Deltas(lists)[j] == Fresh(if j == 0 then {} else Ids(lists[j - 1]), lists[j])
    decreases |lists|
  {
    hide Fresh, Ids;
    var n := |lists| - 1;
    if n > 0 {
      DeltaAt(lists[..n], if j < n then j else 0);
    }
  }

  /** The differences, ingested by a store that may refuse elements or fail, store an id exactly if it was
      taken in a list in which it appeared anew. */
  lemma CutDeltasKeepIdIff(lists: seq<seq<Element>>, cuts: seq<nat>, id: string)
    requires |cuts| == |lists| && id != ""
    ensures id in IngestAll(Taken(Deltas(lists), cuts)) <==>
            exists j: nat :: Appears(lists, j, id) && id in Ids(Taken(Deltas(lists), cuts)[j])
  {
    var taken := Taken(Deltas(lists), cuts);
    var k := FullRecords(taken, id);
    forall j: nat | j < |lists| && id in Ids(taken[j]) ensures Appears(lists, j, id) {
      DeltaAt(lists, j);
      FreshIds(if j == 0 then {} else Ids(lists[j - 1]), lists[j]);
      TakenIds(Deltas(lists), cuts, j);
    }
  }

  lemma TakenIds(lists: seq<seq<Element>>, cuts: seq<nat>, j: nat)
    requires |cuts| == |lists| && j < |lists|
    ensures Ids(Taken(lists, cuts)[j]) <= Ids(lists[j])
  {
  }

  lemma IdsOfOne(e: Element)
    requires e.id != ""
    ensures Ids([e]) == {e.id}
  {
    assert e in [e];
  }

  lemma FreshSnoc(known: set<string>, es: seq<Element>, e: Element)
    ensures Fresh(known, es + [e]) == Fresh(known, es) + if e.id == "" || e.id in known then [] else [e]
  {
    assert (es + [e])[..|es|] == es;
  }

  lemma TwoElements(a: Element, b: Element)
    requires a.id != "" && b.id != ""
    ensures Ids([a, b]) == {a.id, b.id} && Ids([a]) == {a.id} && Fresh({}, [a, b]) == [a, b]
  {
    var none: seq<Element> := [];
    IdsOfOne(a);
    IdsOfOne(b);
    IdsAppend([a], [b]);
    FreshSnoc({}, none, a);
    FreshSnoc({}, [a], b);
    assert none + [a] == [a] && [a] + [b] == [a, b] && Fresh({}, none) == [];
  }

  /** An ingestion that is cut short loses ids for good: two equal snapshots of two elements, the first
      ingested only in part. Ingesting in full makes up for it, the differences do not. */
  lemma CutIngestionLosesId(a: Element, b: Element)
    requires a == Element("a", "") && b == Element("b", "")
    ensures var lists := [[a, b], [a, b]];
            && "b" !in IngestAll(Taken(Deltas(lists), [1, 2]))
            && "b" in IngestAll(Taken(lists, [1, 2]))
  {
    var lists := [[a, b], [a, b]];
    TwoElements(a, b);
    DeltaAt(lists, 0);
    CutDeltasKeepIdIff(lists, [1, 2], "b");
    var k := FullRecords(Taken(lists, [1, 2]), "b");
    hide Ids, Fresh, IngestAll, Deltas;
    assert Taken(Deltas(lists), [1, 2])[0] == [a, b][..1] == [a];
    forall j: nat | Appears(lists, j, "b") ensures "b" !in Ids(Taken(Deltas(lists), [1, 2])[j]) {
      assert j == 0;
    }
    assert Taken(lists, [1, 2])[1] == [a, b];
  }

  // ---------------------------------------------------------------- the watcher's feed

  lemma IngestAllSnoc(lists: seq<seq<Element>>, es: seq<Element>)
    ensures IngestAll(lists + [es]) == Ingest(IngestAll(lists), es)
  {
    assert (lists + [es])[..|lists|] == lists;
  }

  lemma ProjectSnoc(snaps: seq<Snapshot>, s: Snapshot)
    ensures NodesOf(snaps + [s]) == NodesOf(snaps) + [s.nodes]
    ensures EdgesOf(snaps + [s]) == EdgesOf(snaps) + [s.edges]
  {
  }

  /** What the watcher sends amounts, once ingested, to the differences between consecutive successful
      snapshots: failed polls and empty differences make no difference. */
  lemma {:induction false} FeedIsDeltas(polls: seq<Option<Snapshot>>)
    ensures var (last, sent) := After(polls);
            var good := Successes(polls);
            && last == (if good == [] then Snapshot([], []) else good[|good| - 1])
            && IngestAll(NodesOf(sent)) == IngestAll(Deltas(NodesOf(good)))
            && IngestAll(EdgesOf(sent)) == IngestAll(Deltas(EdgesOf(good)))
    decreases |polls|
  {
    if polls != [] {
      var n := |polls| - 1;
      FeedIsDeltas(polls[..n]);
      var (last, sent) := After(polls[..n]);
      var good := Successes(polls[..n]);
      if polls[n].Some? {
        var s := polls[n].value;
        FeedStep(good, last, sent, s);
      } else {
        assert good + [] == good;
      }
    }
  }

  lemma FeedStep(good: seq<Snapshot>, last: Snapshot, sent: seq<Snapshot>, s: Snapshot)
    requires last == if good == [] then Snapshot([], []) else good[|good| - 1]
    requires IngestAll(NodesOf(sent)) == IngestAll(Deltas(NodesOf(good)))
    requires IngestAll(EdgesOf(sent)) == IngestAll(Deltas(EdgesOf(good)))
    ensures var sent1 := Polled(last, sent, Some(s)).1;
            && IngestAll(NodesOf(sent1)) == IngestAll(Deltas(NodesOf(good + [s])))
            && IngestAll(EdgesOf(sent1)) == IngestAll(Deltas(EdgesOf(good + [s])))
  {
    hide Fresh, Ids, Deltas, NodesOf, EdgesOf;
    var d := Diff(last, s);
    ProjectSnoc(good, s);
    ProjectSnoc(sent, d);
    ProjectLast(good);
    KindStep(NodesOf(good), NodesOf(sent), last.nodes, s.nodes);
    KindStep(EdgesOf(good), EdgesOf(sent), last.edges, s.edges);
    IngestAllSnoc(NodesOf(sent), d.nodes);
    IngestAllSnoc(EdgesOf(sent), d.edges);
  }

  lemma ProjectLast(snaps: seq<Snapshot>)
    ensures |NodesOf(snaps)| == |EdgesOf(snaps)| == |snaps|
    ensures snaps != [] ==> NodesOf(snaps)[|snaps| - 1] == snaps[|snaps| - 1].nodes
    ensures snaps != [] ==> EdgesOf(snaps)[|snaps| - 1] == snaps[|snaps| - 1].edges
  {
  }

  lemma KindStep(lists: seq<seq<Element>>, sent: seq<seq<Element>>, last: seq<Element>, next: seq<Element>)
    requires IngestAll(sent) == IngestAll(Deltas(lists))
    requires last == if lists == [] then [] else lists[|lists| - 1]
    ensures Ingest(IngestAll(sent), Fresh(Ids(last), next)) == IngestAll(Deltas(lists + [next]))
  {
    assert (lists + [next])[..|lists|] == lists;
    DeltasSnoc(lists + [next], Ids(last));
  }

  /** What is sent is never empty, and nothing is sent by a poll that fails or finds no new id. */
  lemma {:induction false} SentIsNews(polls: seq<Option<Snapshot>>)
    ensures forall s :: s in After(polls).1 ==> s.nodes != [] || s.edges != []
    ensures polls != [] ==>
              var n := |polls| - 1;
              var (last, sent) := After(polls[..n]);
              if polls[n].Some? && NewIds(last, polls[n].value) then |After(polls).1| == |sent| + 1
              else After(polls).1 == sent
  {
    if polls != [] {
      var n := |polls| - 1;
      SentIsNews(polls[..n]);
      if polls[n].Some? {
        var last := After(polls[..n]).0;
        FreshNonEmpty(Ids(last.nodes), polls[n].value.nodes);
        FreshNonEmpty(Ids(last.edges), polls[n].value.edges);
        hide Fresh, Ids;
      }
    }
  }

  /** The snapshot has a node or an edge with an id that was not there before. */
  ghost predicate NewIds(last: Snapshot, next: Snapshot) {
    || !(Ids(next.nodes) <= Ids(last.nodes))
    || !(Ids(next.edges) <= Ids(last.edges))
  }

  lemma FreshNonEmpty(known: set<string>, es: seq<Element>)
    ensures Fresh(known, es) != [] <==> !(Ids(es) <= known)
  {
    FreshIds(known, es);
    if Fresh(known, es) != [] { FreshHasIds(known, es); }
  }

  lemma {:induction false} FreshHasIds(known: set<string>, es: seq<Element>)
    ensures forall e :: e in Fresh(known, es) ==> e.id != "" && e.id in Ids(Fresh(known, es))
  {
    if es != [] { FreshHasIds(known, es[..|es| - 1]); }
  }

  /** After any series of successful and failed polls, ingesting what the watcher sent gives the same node
      ids and edge ids as ingesting every successful snapshot in full, and each stored record is that of
      the poll in which its id most recently appeared anew. */
  lemma FeedKeepsEveryId(polls: seq<Option<Snapshot>>)
    ensures var sent, good := After(polls).1, Successes(polls);
            && SameIdsLatestRecords(NodesOf(sent), NodesOf(good))
            && SameIdsLatestRecords(EdgesOf(sent), EdgesOf(good))
  {
    FeedIsDeltas(polls);
    DeltasKeepEveryId(NodesOf(Successes(polls)), NodesOf(After(polls).1));
    DeltasKeepEveryId(EdgesOf(Successes(polls)), EdgesOf(After(polls).1));
  }

  ghost predicate SameIdsLatestRecords(sent: seq<seq<Element>>, lists: seq<seq<Element>>) {
    forall id :: id != "" ==>
      && (id in IngestAll(sent) <==> id in IngestAll(lists))
      && (id in IngestAll(sent) ==>
            exists j: nat :: LatestAppearance(lists, j, id) && LastWith(lists[j], id) == Some(IngestAll(sent)[id]))
  }

  lemma DeltasKeepEveryId(lists: seq<seq<Element>>, sent: seq<seq<Element>>)
    requires IngestAll(sent) == IngestAll(Deltas(lists))
    ensures SameIdsLatestRecords(sent, lists)
  {
    forall id | id != ""
      ensures id in IngestAll(sent) <==> id in IngestAll(lists)
      ensures id in IngestAll(sent) ==>
                exists j: nat :: LatestAppearance(lists, j, id) && LastWith(lists[j], id) == Some(IngestAll(sent)[id])
    {
      var j := DeltaRecords(lists, id);
      var k := FullRecords(lists, id);
    }
  }
}

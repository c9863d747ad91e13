// The hubs as objects, proved against the step functions of Hub and LogHistory.
module HubClasses {
  import opened Hub
  import opened LogHistory

  /** internal/web/events.go: EventHub. */
  class EventHub<T> {
    var nextId: nat
    var subs: map<string, set<nat>>
    var chans: map<nat, Channel<T>>
    var panicked: bool

    constructor ()
      ensures View() == Empty<T>() && Valid(View())
    {
      nextId, subs, chans, panicked := 0, map[], map[], false;
    }

    ghost function View(): (view: Core<T>)
      reads this
    {
      Core(nextId, subs, chans, panicked)
    }

    /** The channel and the cancel closure are both named by the id. */
    method Subscribe(key: string) returns (id: nat)
      requires Valid(View())
      modifies this
      ensures Valid(View())
      ensures id == old(nextId) && View() == DoSubscribe(old(View()), key)
    {
      SubscribeValid(View(), key);
      if key !in subs { subs := subs[key := {}]; }
      id := nextId;
      nextId := nextId + 1;
      chans := chans[id := Fresh<T>()];
      subs := subs[key := subs[key] + {id}];
      assert subs == old(subs)[key := Live(old(View()), key) + {id}];
    }

    /** The closure returned by Subscribe; calling it again is harmless. */
    method Cancel(key: string, id: nat)
      requires Valid(View())
      modifies this
      ensures Valid(View())
      ensures View() == DoCancel(old(View()), key, id)
    {
      CancelValid(View(), key, id);
      ListedAreOpen(View(), key);
      hide Valid;
      if key in subs {
        if id in subs[key] {
          subs := subs[key := subs[key] - {id}];
          panicked := panicked || chans[id].closed;
          chans := chans[id := chans[id].(closed := true)];
        }
        assert subs[key] == old(subs)[key] - {id};
        if subs[key] == {} {
          subs := subs - {key};
          assert subs == old(subs) - {key};
        } else {
          assert subs == old(subs)[key := old(subs)[key] - {id}];
        }
      }
    }

    method Receive(id: nat)
      requires Valid(View())
      modifies this
      ensures Valid(View())
      ensures View() == Step(old(View()), true, Op<T>.Receive(id))
    {
      StepValid(View(), true, Op<T>.Receive(id));
      if id in chans && chans[id].buf != [] {
        chans := chans[id := Channel(chans[id].buf[1..], chans[id].closed, chans[id].taken + [chans[id].buf[0]])];
      } else if id in chans {
        assert chans == chans[id := chans[id]];
      }
    }

    /** The select-with-default loop over one key's channels. */
    method SendTo(ids: set<nat>, x: T)
      requires Valid(View()) && forall id :: id in ids ==> id in chans && !chans[id].closed
      modifies this`chans, this`panicked
      ensures Valid(View()) && View() == SendAll(old(View()), ids, x)
    {
      SendValid(View(), ids, x);
      var todo := ids;
      while todo != {}
        invariant todo <= ids
        invariant !panicked
        invariant chans.Keys == old(chans).Keys
        invariant forall id :: id in chans ==>
                    chans[id] == if id in ids - todo then Offer(old(chans)[id], x) else old(chans)[id]
      {
        var id :| id in todo;
        todo := todo - {id};
        panicked := panicked || chans[id].closed;
        if |chans[id].buf| < CAPACITY {
          chans := chans[id := chans[id].(buf := chans[id].buf + [x])];
        }
      }
      assert chans == SendAll(old(View()), ids, x).chans;
    }

    method Publish(ev: T, sessionId: string)
      requires Valid(View())
      modifies this
      ensures Valid(View())
      ensures View() == Step(old(View()), true, Op.Send(sessionId, ev))
    {
      ghost var h := View();
      var own := if sessionId in subs then subs[sessionId] else {};
      var all := if sessionId != "" && "" in subs then subs[""] else {};
      SendTo(own, ev);
      if sessionId != "" {
        assert forall id :: id in all ==> id !in own;
        SendTo(all, ev);
      }
      SendTwice(h, own, all, ev);
      assert own + all == Targets(h, true, sessionId);
    }
  }

  lemma SendTwice<T>(h: Core<T>, a: set<nat>, b: set<nat>, x: T)
    requires Valid(h) && a !! b
    requires forall id :: id in a + b ==> id in h.chans && !h.chans[id].closed
    ensures SendAll(SendAll(h, a, x), b, x) == SendAll(h, a + b, x)
    ensures SendAll(SendAll(h, a, x), {}, x) == SendAll(h, a, x)
  {
    assert SendAll(SendAll(h, a, x), b, x).chans == SendAll(h, a + b, x).chans;
    assert SendAll(SendAll(h, a, x), {}, x).chans == SendAll(h, a, x).chans;
  }

  lemma ListedAreOpen<T>(h: Core<T>, key: string)
    requires Valid(h)
    ensures forall id :: key in h.subs && id in h.subs[key] ==> id in h.chans && !h.chans[id].closed
  {
  }

  lemma EvictOne<T>(history: map<string, seq<T>>, evicted: set<string>, k: string)
    requires k in history && k !in evicted
    ensures history - evicted - {k} == history - (evicted + {k})
    ensures |history - evicted - {k}| == |history - evicted| - 1
  {
    assert (history - evicted).Keys == (history - evicted - {k}).Keys + {k};
  }

  /** internal/tools/logs.go and internal/web/events.go: LogHub. */
  class LogHub<T> {
    const lim: Limits
    const hub: EventHub<T>
    var history: map<string, seq<T>>

    constructor ()
      ensures lim == Limits(200, 500) && fresh(hub)
      ensures View() == Log(Empty<T>(), map[]) && Valid(hub.View())
    {
      lim, history := Limits(200, 500), map[];
      hub := new EventHub<T>();
    }

    ghost function View(): (view: Log<T>)
      reads this, hub
    {
      Log(hub.View(), history)
    }

    /** Record the line, evict idle keys, and offer the line to the key's subscribers. `evicted` is what
        the map iteration happened to remove. */
    method Append(key: string, line: T) returns (ghost evicted: set<string>)
      requires Valid(hub.View())
      modifies this, hub
      ensures Valid(hub.View())
      ensures MayEvict(lim, Recorded(lim, old(history), key, line), old(hub.subs), key, evicted)
      ensures View() == AppendStep(lim, old(View()), key, line, evicted)
    {
      hide Valid, MayEvict, Recorded, SendAll;
      evicted := Remember(key, line);
      assert forall id :: key in hub.subs && id in hub.subs[key] ==> id in hub.chans && !hub.chans[id].closed by {
        ListedAreOpen(hub.View(), key);
      }
      var ids := if key in hub.subs then hub.subs[key] else {};
      assert ids == Targets(hub.View(), false, key);
      hub.SendTo(ids, line);
    }

    /** The history half of Append. */
    method Remember(key: string, line: T) returns (ghost evicted: set<string>)
      modifies this`history
      ensures MayEvict(lim, Recorded(lim, old(history), key, line), hub.subs, key, evicted)
      ensures history == Recorded(lim, old(history), key, line) - evicted
    {
      var lines := (if key in history then history[key] else []) + [line];
      if lim.maxLines > 0 && |lines| > lim.maxLines { lines := lines[|lines| - lim.maxLines..]; }
      history := history[key := lines];
      assert history == Recorded(lim, old(history), key, line);
      evicted := {};
      assert history - {} == history;
      if lim.maxKeys > 0 && |history| > lim.maxKeys {
        evicted := Evict(key);
      }
    }

    /** The eviction loop: keys come in any order. */
    method Evict(key: string) returns (ghost evicted: set<string>)
      requires lim.maxKeys > 0 && |history| > lim.maxKeys && key in history
      modifies this`history
      ensures history == old(history) - evicted
      ensures MayEvict(lim, old(history), hub.subs, key, evicted)
    {
      var todo := history.Keys;
      evicted := {};
      assert old(history) - {} == old(history);
      while todo != {}
        invariant todo <= old(history).Keys && evicted <= old(history).Keys - todo
        invariant history == old(history) - evicted
        invariant evicted <= Idle(old(history), hub.subs, key)
        invariant |history| > lim.maxKeys
        invariant forall k :: k in old(history) && k !in todo && k !in evicted ==> k == key || k in hub.subs
      {
        var k :| k in todo;
        todo := todo - {k};
        if k == key { continue; }
        if k !in hub.subs {
          EvictOne(old(history), evicted, k);
          history := history - {k};
          evicted := evicted + {k};
        }
        if |history| <= lim.maxKeys { break; }
      }
      if |history| > lim.maxKeys { assert evicted == Idle(old(history), hub.subs, key); }
    }

    method History(key: string) returns (out: seq<T>)
      ensures out == LinesOf(history, key)
    {
      out := if key in history then history[key] else [];
    }
  }
}

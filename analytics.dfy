/** Local-only session analytics: every event is kept in the session state
    (an append-only event list) and copied, best effort, to a JSONL file;
    "once" events are guarded by a grow-only set of keys.

    The wall clock and the file system are not modelled: the timestamp is a
    parameter, and whether the file append succeeds is a parameter that only
    decides whether the line reaches the log. */
module Analytics {
  import opened Wrappers
  import opened Json

  /** One recorded event: {"ts", "event", "page", "props"}. */
  datatype Payload = Payload(ts: string, event: string, page: string, props: Json)

  /** The analytics entries of the session state; None means the entry is
      absent. */
  datatype Entries = Entries(events: Option<seq<Payload>>, onceKeys: Option<set<string>>)

  /** _ensure_state: setdefault of both entries. */
  function Ensured(s: Entries): (r: Entries)
    ensures r.events.Some? && r.onceKeys.Some?
    ensures s.events.Some? ==> r.events == s.events
    ensures s.onceKeys.Some? ==> r.onceKeys == s.onceKeys
    ensures s.events.None? ==> r.events == Some([])
    ensures s.onceKeys.None? ==> r.onceKeys == Some({})
  {
    Entries(if s.events.Some? then s.events else Some([]),
          if s.onceKeys.Some? then s.onceKeys else Some({}))
  }

  /** The payload track_event builds: event and page stringified, props
      defaulting to {} when falsy. */
  function MakePayload(ts: string, event: Json, page: Json, props: Json): (p: Payload)
    ensures p.ts == ts
    ensures Truthy(props) ==> p.props == props
    ensures !Truthy(props) ==> p.props == Obj([])
  {
    Payload(ts, PyStr(event), PyStr(page), Or(props, Obj([])))
  }

  /** The session state after track_event. */
  function Track(s: Entries, ts: string, event: Json, page: Json, props: Json): Entries {
    var e := Ensured(s);
    Entries(Some(e.events.value + [MakePayload(ts, event, page, props)]), e.onceKeys)
  }

  /** The session state after track_event_once. */
  function TrackOnce(s: Entries, ts: string, event: Json, page: Json, onceKey: string, props: Json): Entries {
    var e := Ensured(s);
    if onceKey in e.onceKeys.value then e
    else Track(Entries(e.events, Some(e.onceKeys.value + {onceKey})), ts, event, page, props)
  }

  /** The events recorded so far ([] when the entry is absent). */
  function EventsOf(s: Entries): seq<Payload> {
    if s.events.Some? then s.events.value else []
  }

  /** The once keys recorded so far ({} when the entry is absent). */
  function KeysOf(s: Entries): set<string> {
    if s.onceKeys.Some? then s.onceKeys.value else {}
  }

  /** _ensure_state creates what is absent and keeps what is present, so a
      second call changes nothing. */
  lemma EnsureStateIdempotent(s: Entries)
    ensures Ensured(Ensured(s)) == Ensured(s)
    ensures EventsOf(Ensured(s)) == EventsOf(s) && KeysOf(Ensured(s)) == KeysOf(s)
  {
  }

  /** track_event appends exactly one payload at the end of the event list,
      leaves the earlier events and the once keys as they were, and records
      event and page as text. */
  lemma TrackAppendsOne(s: Entries, ts: string, event: Json, page: Json, props: Json)
    ensures var t := Track(s, ts, event, page, props);
            && t.events.Some? && t.onceKeys.Some?
            && EventsOf(t) == EventsOf(s) + [MakePayload(ts, event, page, props)]
            && KeysOf(t) == KeysOf(s)
            && EventsOf(t)[|EventsOf(t)| - 1].event == PyStr(event)
            && EventsOf(t)[|EventsOf(t)| - 1].page == PyStr(page)
  {
  }

  /** A once key already recorded makes track_event_once change nothing
      beyond creating absent entries: no event and no key is added. */
  lemma TrackOnceKnownKey(s: Entries, ts: string, event: Json, page: Json, onceKey: string, props: Json)
    requires onceKey in KeysOf(s)
    ensures TrackOnce(s, ts, event, page, onceKey, props) == Ensured(s)
    ensures EventsOf(TrackOnce(s, ts, event, page, onceKey, props)) == EventsOf(s)
    ensures KeysOf(TrackOnce(s, ts, event, page, onceKey, props)) == KeysOf(s)
  {
  }

  /** A new once key is added to the set, and exactly one event is
      appended. */
  lemma TrackOnceNewKey(s: Entries, ts: string, event: Json, page: Json, onceKey: string, props: Json)
    requires onceKey !in KeysOf(s)
    ensures KeysOf(TrackOnce(s, ts, event, page, onceKey, props)) == KeysOf(s) + {onceKey}
    ensures EventsOf(TrackOnce(s, ts, event, page, onceKey, props)) == EventsOf(s) + [MakePayload(ts, event, page, props)]
  {
  }

  /** A second track_event_once with the same key, whatever its other
      arguments, leaves the state the first call left. */
  lemma TrackOnceIdempotent(s: Entries, ts: string, event: Json, page: Json, onceKey: string, props: Json,
                            ts2: string, event2: Json, page2: Json, props2: Json)
    ensures var once := TrackOnce(s, ts, event, page, onceKey, props);
            TrackOnce(once, ts2, event2, page2, onceKey, props2) == once
  {
    var once := TrackOnce(s, ts, event, page, onceKey, props);
    assert onceKey in KeysOf(once);
    TrackOnceKnownKey(once, ts2, event2, page2, onceKey, props2);
  }

  /** Neither operation removes anything: the once keys never shrink and
      the earlier events stay a prefix of the event list. */
  lemma NothingIsForgotten(s: Entries, ts: string, event: Json, page: Json, onceKey: string, props: Json)
    ensures var t := Track(s, ts, event, page, props);
            KeysOf(s) <= KeysOf(t) && EventsOf(s) <= EventsOf(t)
    ensures var t := TrackOnce(s, ts, event, page, onceKey, props);
            KeysOf(s) <= KeysOf(t) && EventsOf(s) <= EventsOf(t)
            && |EventsOf(t)| <= |EventsOf(s)| + 1
  {
    TrackAppendsOne(s, ts, event, page, props);
    if onceKey in KeysOf(s) {
      TrackOnceKnownKey(s, ts, event, page, onceKey, props);
    } else {
      TrackOnceNewKey(s, ts, event, page, onceKey, props);
    }
  }

  /** The arguments of one track_event_once call. */
  datatype OnceCall = OnceCall(ts: string, event: Json, page: Json, onceKey: string, props: Json)

  /** The session state after a run of track_event_once calls, in order. */
  function RunOnce(s: Entries, calls: seq<OnceCall>): Entries {
    if calls == [] then s
    else
      var c := calls[|calls| - 1];
      TrackOnce(RunOnce(s, calls[..|calls| - 1]), c.ts, c.event, c.page, c.onceKey, c.props)
  }

  /** The keys of a run of calls. */
  function CallKeys(calls: seq<OnceCall>): set<string> {
    set i | 0 <= i < |calls| :: calls[i].onceKey
  }

  /** Over any run of track_event_once calls, the once keys become the old
      ones plus the run's keys, the old events stay a prefix, and exactly one
      event is recorded per key that was new: repeated keys record
      nothing. */
  lemma {:induction false} RunOnceOneEventPerKey(s: Entries, calls: seq<OnceCall>)
    ensures KeysOf(RunOnce(s, calls)) == KeysOf(s) + CallKeys(calls)
    ensures EventsOf(s) <= EventsOf(RunOnce(s, calls))
    ensures |EventsOf(RunOnce(s, calls))| == |EventsOf(s)| + |CallKeys(calls) - KeysOf(s)|
  {
    if calls == [] {
      assert CallKeys(calls) - KeysOf(s) == {};
    } else {
      var init, c := calls[..|calls| - 1], calls[|calls| - 1];
      var before := RunOnce(s, init);
      RunOnceOneEventPerKey(s, init);
      CallKeysSnoc(calls);
      if c.onceKey in KeysOf(before) {
        TrackOnceKnownKey(before, c.ts, c.event, c.page, c.onceKey, c.props);
        NewKeysSame(CallKeys(init), KeysOf(s), c.onceKey);
      } else {
        TrackOnceNewKey(before, c.ts, c.event, c.page, c.onceKey, c.props);
        NewKeysGrow(CallKeys(init), KeysOf(s), c.onceKey);
      }
    }
  }

  lemma CallKeysSnoc(calls: seq<OnceCall>)
    requires calls != []
    ensures CallKeys(calls) == CallKeys(calls[..|calls| - 1]) + {calls[|calls| - 1].onceKey}
  {
    var init := calls[..|calls| - 1];
    forall k | k in CallKeys(calls) ensures k in CallKeys(init) + {calls[|calls| - 1].onceKey} {
      var i :| 0 <= i < |calls| && calls[i].onceKey == k;
      if i < |init| { assert init[i] == calls[i]; }
    }
    forall k | k in CallKeys(init) ensures k in CallKeys(calls) {
      var i :| 0 <= i < |init| && init[i].onceKey == k;
      assert calls[i] == init[i];
    }
  }

  /** A key already known adds nothing new. */
  lemma NewKeysSame(run: set<string>, old0: set<string>, k: string)
    requires k in old0 + run
    ensures (run + {k}) - old0 == run - old0
  {
  }

  /** A key not yet known adds exactly one new key. */
  lemma NewKeysGrow(run: set<string>, old0: set<string>, k: string)
    requires k !in old0 + run
    ensures |(run + {k}) - old0| == |run - old0| + 1
  {
    assert (run + {k}) - old0 == (run - old0) + {k};
  }

  /** The analytics part of one browser session, with the JSONL file it
      appends to. */
  class Session {
    /** st.session_state["_analytics_events"], when set. */
    var events: Option<seq<Payload>>
    /** st.session_state["_analytics_once_keys"], when set. */
    var onceKeys: Option<set<string>>
    /** The lines written to the JSONL file by this session. */
    var log: seq<Payload>

    /** A fresh session: no analytics entries, nothing logged. */
    constructor()
      ensures events == None && onceKeys == None && log == []
    {
      events := None;
      onceKeys := None;
      log := [];
    }

    function Current(): Entries
      reads this
    {
      Entries(events, onceKeys)
    }

    /** _ensure_state. */
    method EnsureState()
      modifies this
      ensures Current() == Ensured(old(Current()))
      ensures log == old(log)
    {
      if events.None? {
        events := Some([]);
      }
      if onceKeys.None? {
        onceKeys := Some({});
      }
    }

    /** _append_to_file: the line is written when the file system allows
      it; a failure is swallowed and touches nothing else. */
    method AppendToFile(payload: Payload, appendOk: bool)
      modifies this
      ensures log == if appendOk then old(log) + [payload] else old(log)
      ensures events == old(events) && onceKeys == old(onceKeys)
    {
      if appendOk {
        log := log + [payload];
      }
    }

    /** track_event. Whether the file append succeeds has no effect on the
        session state. */
    method TrackEvent(ts: string, event: Json, page: Json, props: Json, appendOk: bool)
      modifies this
      ensures Current() == Track(old(Current()), ts, event, page, props)
      ensures log == old(log) + (if appendOk then [MakePayload(ts, event, page, props)] else [])
    {
      EnsureState();
      var payload := Payload(ts, PyStr(event), PyStr(page), Or(props, Obj([])));
      events := Some(events.value + [payload]);
      AppendToFile(payload, appendOk);
    }

    /** track_event_once. */
    method TrackEventOnce(ts: string, event: Json, page: Json, onceKey: string, props: Json, appendOk: bool)
      modifies this
      ensures Current() == TrackOnce(old(Current()), ts, event, page, onceKey, props)
      ensures log == old(log) + (if onceKey !in KeysOf(old(Current())) && appendOk
                                 then [MakePayload(ts, event, page, props)] else [])
    {
      ghost var before := old(Current());
      EnsureState();
      ghost var e := Current();
      assert KeysOf(before) == e.onceKeys.value;
      if onceKey in onceKeys.value {
        return;
      }
      onceKeys := Some(onceKeys.value + {onceKey});
      assert Ensured(Current()) == Current();
      TrackEvent(ts, event, page, props, appendOk);
    }
  }
}

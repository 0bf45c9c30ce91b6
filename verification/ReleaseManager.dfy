/** The manager of release handlers (pkg/release/release.go). */
module ReleaseManager {
  import opened Common
  import opened Paths
  import opened ReleaseDoc

  /** What the manager keys handlers by. */
  function Key(namespace: string, name: string): string {
    namespace + "/" + name
  }

  lemma KeyIsInjective(namespace: string, name: string, namespace': string, name': string)
    requires SlashFree(namespace) && SlashFree(namespace') && Key(namespace, name) == Key(namespace', name')
    ensures namespace == namespace' && name == name'
  {
    SplitWithHead(namespace, name);
    SplitWithHead(namespace', name');
    assert ([namespace] + Split(name))[0] == namespace && ([namespace] + Split(name))[1..] == Split(name);
    assert ([namespace'] + Split(name'))[0] == namespace' && ([namespace'] + Split(name'))[1..] == Split(name');
    JoinUndoesSplit(name);
    JoinUndoesSplit(name');
  }

  datatype Error = NotRunning | NoHandler | Stopped

  class Handler {
    const name: string
    var queue: seq<Release>
    var started: bool
    var canceled: bool

    constructor (name: string)
      ensures this.name == name && queue == [] && !started && !canceled
    {
      this.name := name;
      queue, started, canceled := [], false, false;
    }

    /** The first object starts the goroutine. */
    method Enqueue(rel: Release) returns (r: Option<Error>)
      modifies this
      ensures r == if old(canceled) then Some(Stopped) else None
      ensures canceled == old(canceled) && started == (old(started) || !canceled)
      ensures queue == if canceled then old(queue) else old(queue) + [rel]
    {
      if canceled {
        return Some(Stopped);
      }
      queue := queue + [rel];
      if !started {
        started := true;
      }
      r := None;
    }

    /** Cancelling calls a function that only starting the goroutine sets. */
    method Stop()
      requires started
      modifies this
      ensures canceled && started == old(started) && queue == old(queue)
    {
      if !canceled {
        canceled := true;
      }
    }
  }

  class Manager {
    var handlers: map<string, Handler>
    var running: bool
    /** Every handler ever created. */
    ghost var made: set<Handler>

    ghost predicate Valid()
      reads this, made
    {
      && handlers.Values <= made
      && (forall k | k in handlers :: handlers[k].name == k && handlers[k].started && !handlers[k].canceled)
      && (forall h | h in made && !h.canceled :: h.name in handlers && handlers[h.name] == h)
      && (forall h | h in made :: h.started)
    }

    /** The objects sent to the handlers that are alive. */
    ghost function Live(): map<string, seq<Release>>
      reads this, handlers.Values
    {
      map k | k in handlers :: handlers[k].queue
    }

    constructor ()
      ensures Valid() && !running && Live() == map[] && made == {}
    {
      handlers, running, made := map[], false, {};
    }

    method Run()
      requires Valid()
      modifies this`running
      ensures Valid() && running && Live() == old(Live()) && made == old(made)
    {
      if running {
        return;
      }
      running := true;
    }

    method Trigger(namespace: string, rel: Release) returns (r: Option<Error>)
      requires Valid()
      modifies this, made
      ensures Valid() && running == old(running) && old(made) <= made && fresh(made - old(made))
      ensures r == if running then None else Some(NotRunning)
      ensures Live() == Triggered(running, old(Live()), Key(namespace, rel.name), rel)
    {
      if !running {
        return Some(NotRunning);
      }
      var key := Key(namespace, rel.name);
      var rh;
      if key in handlers {
        rh := handlers[key];
      } else {
        rh := new Handler(key);
        handlers := handlers[key := rh];
        made := made + {rh};
      }
      r := rh.Enqueue(rel);
    }

    method Delete(namespace: string, name: string) returns (r: Option<Error>)
      requires Valid()
      modifies this, made
      ensures Valid() && running == old(running) && made == old(made)
      ensures r == if !running then Some(NotRunning)
                   else if Key(namespace, name) in old(handlers) then None else Some(NoHandler)
      ensures Live() == Deleted(running, old(Live()), Key(namespace, name))
      ensures running && Key(namespace, name) in old(handlers) ==> old(handlers)[Key(namespace, name)].canceled
    {
      if !running {
        return Some(NotRunning);
      }
      var key := Key(namespace, name);
      if key !in handlers {
        return Some(NoHandler);
      }
      var rh := handlers[key];
      handlers := handlers - {key};
      rh.Stop();
      r := None;
    }

    /**
     Of all handlers ever made for a release at most one is not cancelled. A cancelled one is sent
     nothing more; an attempt that it is in the middle of still runs to its end.
     */
    lemma OneHandlerPerKey(h: Handler, h': Handler)
      requires Valid() && h in made && h' in made && !h.canceled && !h'.canceled && h.name == h'.name
      ensures h == h'
    {
    }
  }

  function Triggered(running: bool, live: map<string, seq<Release>>, key: string, rel: Release)
    : map<string, seq<Release>>
  {
    if running then live[key := (if key in live then live[key] else []) + [rel]] else live
  }

  function Deleted(running: bool, live: map<string, seq<Release>>, key: string): map<string, seq<Release>> {
    if running then live - {key} else live
  }

  // ---------- Sequences of events ----------

  datatype Event =
    | Running
    | Triggering(namespace: string, rel: Release)
    | Deleting(namespace: string, name: string)

  datatype Summary = Summary(running: bool, live: map<string, seq<Release>>)

  function After(events: seq<Event>): Summary {
    if events == [] then
      Summary(false, map[])
    else
      var s := After(events[..|events| - 1]);
      match events[|events| - 1]
      case Running => s.(running := true)
      case Triggering(ns, rel) => s.(live := Triggered(s.running, s.live, Key(ns, rel.name), rel))
      case Deleting(ns, name) => s.(live := Deleted(s.running, s.live, Key(ns, name)))
  }

  /** The events of the manager as a whole and of one release. */
  function Only(events: seq<Event>, namespace: string, name: string): seq<Event> {
    if events == [] then
      []
    else
      var e := events[|events| - 1];
      Only(events[..|events| - 1], namespace, name) + if Concerns(e, namespace, name) then [e] else []
  }

  predicate Concerns(e: Event, namespace: string, name: string) {
    match e
    case Running => true
    case Triggering(ns, rel) => ns == namespace && rel.name == name
    case Deleting(ns, n) => ns == namespace && n == name
  }

  ghost predicate NamespacesAreSlashFree(events: seq<Event>) {
    forall e | e in events ::
      match e
      case Running => true
      case Triggering(ns, _) => SlashFree(ns)
      case Deleting(ns, _) => SlashFree(ns)
  }

  /** What one event makes of what the live handler of a release was sent. */
  function SentAfter(running: bool, sent: Option<seq<Release>>, e: Event, namespace: string, name: string)
    : Option<seq<Release>>
  {
    if !running || e.Running? || !Concerns(e, namespace, name) then sent
    else if e.Deleting? then None
    else Some((if sent.Some? then sent.value else []) + [e.rel])
  }

  lemma OneMoreEvent(init: seq<Event>, e: Event, namespace: string, name: string)
    requires NamespacesAreSlashFree([e]) && SlashFree(namespace)
    ensures After(init + [e]).running == (After(init).running || e.Running?)
    ensures Lookup(After(init + [e]).live, Key(namespace, name))
         == SentAfter(After(init).running, Lookup(After(init).live, Key(namespace, name)), e, namespace, name)
  {
    assert (init + [e])[..|init|] == init && e in [e];
    match e
    case Running =>
    case Triggering(ns, rel) =>
      if Key(ns, rel.name) == Key(namespace, name) {
        KeyIsInjective(ns, rel.name, namespace, name);
      }
    case Deleting(ns, n) =>
      if Key(ns, n) == Key(namespace, name) {
        KeyIsInjective(ns, n, namespace, name);
      }
  }

  /** What a handler has been sent depends on the events of its own release alone. */
  lemma {:induction false} ReleasesAreIndependent(events: seq<Event>, namespace: string, name: string)
    requires NamespacesAreSlashFree(events) && SlashFree(namespace)
    ensures After(events).running == After(Only(events, namespace, name)).running
    ensures Lookup(After(events).live, Key(namespace, name)) ==
            Lookup(After(Only(events, namespace, name)).live, Key(namespace, name))
  {
    if events != [] {
      var init, e := events[..|events| - 1], events[|events| - 1];
      assert e in events && forall d | d in init :: d in events;
      assert init + [e] == events && e in [e];
      ReleasesAreIndependent(init, namespace, name);
      OneMoreEvent(init, e, namespace, name);
      var only := Only(init, namespace, name);
      if Concerns(e, namespace, name) {
        OneMoreEvent(only, e, namespace, name);
      } else {
        assert only + [] == only;
      }
    }
  }

  // ---------- What a handler was sent ----------

  /** The objects that were triggered for a release, in order. */
  function Sent(events: seq<Event>, namespace: string, name: string): seq<Release> {
    if events == [] then []
    else
      var e := events[|events| - 1];
      Sent(events[..|events| - 1], namespace, name)
      + if e.Triggering? && e.namespace == namespace && e.rel.name == name then [e.rel] else []
  }

  /**
   While the manager runs, a release's live handler has been sent exactly what was triggered since
   there was none, in order, up to its next deletion; without a trigger there is no handler.
   */
  lemma {:induction false} HandlerWasSentWhatWasTriggered(
      before: seq<Event>, after: seq<Event>, namespace: string, name: string)
    requires NamespacesAreSlashFree(after) && SlashFree(namespace)
    requires After(before).running && Key(namespace, name) !in After(before).live
    requires forall e | e in after :: e.Deleting? ==> !Concerns(e, namespace, name)
    ensures After(before + after).running
    ensures var sent := Sent(after, namespace, name);
            Lookup(After(before + after).live, Key(namespace, name)) == if sent == [] then None else Some(sent)
    decreases |after|
  {
    if after == [] {
      assert before + after == before;
    } else {
      var init, e := after[..|after| - 1], after[|after| - 1];
      assert e in after && forall d | d in init :: d in after;
      HandlerWasSentWhatWasTriggered(before, init, namespace, name);
      assert before + after == (before + init) + [e] && e in [e];
      OneMoreEvent(before + init, e, namespace, name);
      assert Sent(init, namespace, name) + [] == Sent(init, namespace, name);
      assert ((before + init) + [e])[..|before + init|] == before + init;
    }
  }

  /** A deletion while the manager runs leaves no live handler, and nothing is sent before it runs. */
  lemma NoHandlerAfterDeletion(events: seq<Event>, namespace: string, name: string)
    ensures var s := After(events + [Deleting(namespace, name)]);
            Key(namespace, name) in s.live ==> !s.running && Key(namespace, name) in After(events).live
  {
    assert (events + [Deleting(namespace, name)])[..|events|] == events;
  }

  lemma {:induction false} NothingBeforeRunning(events: seq<Event>)
    requires forall e | e in events :: !e.Running?
    ensures After(events) == Summary(false, map[])
  {
    if events != [] {
      assert events[|events| - 1] in events && forall e | e in events[..|events| - 1] :: e in events;
      NothingBeforeRunning(events[..|events| - 1]);
    }
  }
}

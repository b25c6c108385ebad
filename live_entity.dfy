/**
 The live-entity mirror (`useLiveLayer` and `useLiveLayerGroup` in
 src/utils/feltUtils.js). Both hooks are one `LiveMirror<E>`: `useLiveLayer`
 is `LiveMirror<Layer>` with `idOf == LayerId`, `useLiveLayerGroup` is
 `LiveMirror<LayerGroup>` with `idOf == GroupId`.

 The state slot is seeded once from the initial entity (React's `useState`
 ignores later initial values). The push subscription is keyed on the initial
 entity's id: the effect re-runs, disposing the old subscription and making a
 new one, only when that id changes. The map service delivers a push to the
 handler only for the subscribed id, and the handler replaces the whole value
 with whatever the push carries, `null` included: the state is an `Option<E>`
 that starts as `Some(initial)` and a push may set it to `None`.
 */
module LiveEntity {
  import opened Entities

  /** A call the mirror makes on the map service's change feed. */
  datatype SubscriptionCall = Subscribe(id: string) | Dispose(id: string)

  /**
   What can happen to a mounted mirror: a push from the service, whose entity
   may be `null` (`None`), or a re-render with a (possibly new) initial entity.
   */
  datatype MirrorEvent<E> = Pushed(entityId: string, entity: Option<E>) | Rendered(initial: E)

  datatype MirrorState<E> = MirrorState(current: Option<E>, subscribedId: string)

  /** The effect of one event on the mirror's state. */
  function Step<E>(idOf: E -> string, s: MirrorState<E>, ev: MirrorEvent<E>): MirrorState<E>
  {
    match ev
    case Pushed(id, e) => if id == s.subscribedId then s.(current := e) else s
    case Rendered(initial) => s.(subscribedId := idOf(initial))
  }

  /** The mirror's state after `events`, starting from the first render with `initial`. */
  function Replay<E>(idOf: E -> string, initial: E, events: seq<MirrorEvent<E>>): MirrorState<E>
  {
    if events == [] then MirrorState(Some(initial), idOf(initial))
    else Step(idOf, Replay(idOf, initial, events[..|events| - 1]), events[|events| - 1])
  }

  /** The service's live subscriptions after `calls`, as a multiset of ids. */
  function Active(calls: seq<SubscriptionCall>): multiset<string>
  {
    if calls == [] then multiset{}
    else
      var before := Active(calls[..|calls| - 1]);
      match calls[|calls| - 1]
      case Subscribe(id) => before + multiset{id}
      case Dispose(id) => before - multiset{id}
  }

  /** No event re-renders the mirror with an entity whose id differs from `id`. */
  predicate KeepsId<E>(idOf: E -> string, id: string, events: seq<MirrorEvent<E>>)
  {
    forall i :: 0 <= i < |events| && events[i].Rendered? ==> idOf(events[i].initial) == id
  }

  /** The entity of the last push for `id` in `events`, or `seed` if there is none. */
  function LastPushFor<E>(id: string, seed: Option<E>, events: seq<MirrorEvent<E>>): Option<E>
  {
    if events == [] then seed
    else
      var last := events[|events| - 1];
      if last.Pushed? && last.entityId == id then last.entity
      else LastPushFor(id, seed, events[..|events| - 1])
  }

  /**
   While the id stays the same, the mirror shows the initial entity until the
   first push and then the entity of the most recent push: last push wins, and
   a re-render with a new initial value of the same id resets nothing.
   */
  lemma {:induction false} LastPushWins<E>(idOf: E -> string, initial: E, events: seq<MirrorEvent<E>>)
    requires KeepsId(idOf, idOf(initial), events)
    ensures Replay(idOf, initial, events) == MirrorState(LastPushFor(idOf(initial), Some(initial), events), idOf(initial))
  {
    if events != [] {
      var prefix := events[..|events| - 1];
      assert forall i :: 0 <= i < |prefix| ==> prefix[i] == events[i];
      LastPushWins(idOf, initial, prefix);
    }
  }

  /** The subscribed id is always the id of the entity of the latest render. */
  lemma {:induction false} SubscribedToLatestRender<E>(idOf: E -> string, initial: E, events: seq<MirrorEvent<E>>, k: nat)
    requires k < |events| && events[k].Rendered?
    requires forall i :: k < i < |events| ==> events[i].Pushed?
    ensures Replay(idOf, initial, events).subscribedId == idOf(events[k].initial)
  {
    if k < |events| - 1 {
      var prefix := events[..|events| - 1];
      assert forall i :: k < i < |prefix| ==> prefix[i] == events[i];
      SubscribedToLatestRender(idOf, initial, prefix, k);
    }
  }

  /** A push for an id other than the subscribed one is not delivered and changes nothing. */
  lemma PushForOtherIdIgnored<E>(idOf: E -> string, initial: E, events: seq<MirrorEvent<E>>, id: string, e: Option<E>)
    requires id != Replay(idOf, initial, events).subscribedId
    ensures Replay(idOf, initial, events + [Pushed(id, e)]) == Replay(idOf, initial, events)
  {
    assert (events + [Pushed(id, e)])[..|events|] == events;
  }

  /** One more event is one more step. */
  lemma ReplaySnoc<E>(idOf: E -> string, initial: E, events: seq<MirrorEvent<E>>, ev: MirrorEvent<E>)
    ensures Replay(idOf, initial, events + [ev]) == Step(idOf, Replay(idOf, initial, events), ev)
  {
    assert (events + [ev])[..|events|] == events;
  }

  /** Disposing the one live subscription and subscribing for `b` leaves exactly the subscription for `b` live. */
  lemma SwitchSubscription(calls: seq<SubscriptionCall>, a: string, b: string)
    requires Active(calls) == multiset{a}
    ensures Active(calls + [Dispose(a), Subscribe(b)]) == multiset{b}
  {
    var disposed := calls + [Dispose(a)];
    var both := disposed + [Subscribe(b)];
    assert disposed[..|disposed| - 1] == calls;
    assert both[..|both| - 1] == disposed;
    assert Active(disposed) == multiset{};
    assert calls + [Dispose(a), Subscribe(b)] == both;
  }

  /** One mounted `useLiveLayer` / `useLiveLayerGroup` hook. */
  class LiveMirror<E> {
    /** How the hook reads an entity's id (`initialLayer.id`, `initialGroup.id`). */
    const idOf: E -> string
    /** The hook's state slot: what it returns; `None` once a push carried `null`. */
    var current: Option<E>
    /** The id the effect subscribed with. */
    var subscribedId: string
    /** Every subscribe and dispose call made on the map service, in order. */
    var subscriptions: seq<SubscriptionCall>

    ghost const seed: E
    ghost var events: seq<MirrorEvent<E>>

    ghost predicate Valid()
      reads this
    {
      && MirrorState(current, subscribedId) == Replay(idOf, seed, events)
      && Active(subscriptions) == multiset{subscribedId}
    }

    /** First render: seed the state and subscribe for the initial entity's id. */
    constructor (idOf: E -> string, initial: E)
      ensures Valid()
      ensures this.idOf == idOf && seed == initial && events == []
      ensures current == Some(initial) && subscribedId == idOf(initial)
      ensures subscriptions == [Subscribe(idOf(initial))]
    {
      this.idOf := idOf;
      current := Some(initial);
      subscribedId := idOf(initial);
      subscriptions := [Subscribe(idOf(initial))];
      seed := initial;
      events := [];
      assert [Subscribe(idOf(initial))][..0] == [];
    }

    /** The service emits a change of entity `entityId`; the handler runs only for the subscribed id. */
    method Notify(entityId: string, entity: Option<E>)
      requires Valid()
      modifies this
      ensures Valid()
      ensures events == old(events) + [Pushed(entityId, entity)]
      ensures current == if entityId == old(subscribedId) then entity else old(current)
      ensures subscribedId == old(subscribedId) && subscriptions == old(subscriptions)
    {
      ghost var evs := events + [Pushed(entityId, entity)];
      ReplaySnoc(idOf, seed, events, Pushed(entityId, entity));
      ghost var after := Replay(idOf, seed, evs);
      assert after == Step(idOf, MirrorState(current, subscribedId), Pushed(entityId, entity));
      var newCurrent := if entityId == subscribedId then entity else current;
      assert after == MirrorState(newCurrent, subscribedId);
      current := newCurrent;
      events := evs;
      assert MirrorState(current, subscribedId) == after;
    }

    /** A re-render with `initial`: the state is kept; the effect re-runs only when the id changed. */
    method Render(initial: E)
      requires Valid()
      modifies this
      ensures Valid()
      ensures events == old(events) + [Rendered(initial)]
      ensures current == old(current) && subscribedId == idOf(initial)
      ensures subscriptions == if idOf(initial) == old(subscribedId) then old(subscriptions)
                               else old(subscriptions) + [Dispose(old(subscribedId)), Subscribe(idOf(initial))]
    {
      var id := idOf(initial);
      ghost var evs := events + [Rendered(initial)];
      ReplaySnoc(idOf, seed, events, Rendered(initial));
      ghost var after := Replay(idOf, seed, evs);
      assert after == Step(idOf, MirrorState(current, subscribedId), Rendered(initial));
      assert after == MirrorState(current, id);
      if id != subscribedId {
        SwitchSubscription(subscriptions, subscribedId, id);
        subscriptions := subscriptions + [Dispose(subscribedId), Subscribe(id)];
        subscribedId := id;
      }
      events := evs;
      assert MirrorState(current, subscribedId) == after;
    }
  }

  /** Seed then override: a layer shown visible becomes hidden after a push and stays so across a same-id re-render. */
  method SeedThenOverride(l: Layer)
  {
    var m := new LiveMirror<Layer>(LayerId, l);
    var hidden := l.(visible := false);
    m.Notify(l.id, Some(hidden));
    assert m.current == Some(hidden);
    m.Render(l);
    assert m.current == Some(hidden) && m.subscriptions == [Subscribe(l.id)];
  }

  /** Switching from id `a` to id `b` disposes `a` once and subscribes `b` once. */
  method ResubscribeOnIdChange(a: LayerGroup, b: LayerGroup)
    requires a.id != b.id
  {
    var m := new LiveMirror<LayerGroup>(GroupId, a);
    m.Render(b);
    assert m.subscriptions == [Subscribe(a.id), Dispose(a.id), Subscribe(b.id)];
    assert m.subscribedId == b.id;
  }
}

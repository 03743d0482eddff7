/**
  The handler registry and dispatcher of the dolores plugin SDK (`dolores/handler.hpp`).

  A handler pairs an optional guard with an optional callback. The registry keeps one
  ordered map from handler name to handler per event category. Dispatching an event walks
  the category's map in key order, skips disabled names (those starting with `_`), and runs
  every handler whose guard accepts the event. The effect of a dispatch is recorded as the
  trace of the names whose callback is invoked, in invocation order.
 */
module Dolores {
  import opened Wrappers
  import opened Strings
  import opened OrderedKeys

  /** The three event categories, one per base event type of the host (message, notice, request). */
  datatype Category = Message | Notice | Request

  /** The identity of a callback; what the callback does with its session is not modelled. */
  type Callback = nat

  /** `Handler<E>`: an optional callback (`_impl`) and an optional guard (`_condition`). */
  datatype Handler<-E> = Handler(impl: Option<Callback>, condition: Option<E -> bool>)

  /** `Handler::check_condition`: a handler without a guard accepts every event. */
  function CheckCondition<E>(h: Handler<E>, event: E): (pass: bool)
    ensures h.condition.None? ==> pass
    ensures h.condition.Some? ==> pass == h.condition.value(event)
  {
    match h.condition
    case None => true
    case Some(guard) => guard(event)
  }

  /** `Handler::run`: the callbacks it invokes; none without a callback, else that one, once. */
  function Run<E>(h: Handler<E>): (calls: seq<Callback>)
    ensures |calls| <= 1
    ensures calls == [] <==> h.impl.None?
    ensures forall c :: c in calls ==> h.impl == Some(c)
  {
    match h.impl
    case None => []
    case Some(callback) => [callback]
  }

  /** The name prefix that disables a handler without removing it. */
  const ReservedPrefix: Bytes := [0x5F]

  predicate Disabled(name: Bytes) {
    StartsWith(name, ReservedPrefix)
  }

  /** A dispatch invokes the handler registered under `name`. */
  predicate Invoked<E>(h: Handler<E>, name: Bytes, event: E) {
    !Disabled(name) && CheckCondition(h, event) && Run(h) != []
  }

  /** `handlers[name] = handler` on a `std::map`: insert, or overwrite the existing entry. */
  function Register<E>(m: map<Bytes, Handler<E>>, name: Bytes, h: Handler<E>): (r: map<Bytes, Handler<E>>)
    ensures name in r && r[name] == h
    ensures forall k :: k != name ==> (k in r <==> k in m)
    ensures forall k :: k != name && k in m ==> r[k] == m[k]
    ensures |r| == if name in m then |m| else |m| + 1
  {
    var r := m[name := h];
    assert r.Keys == m.Keys + {name};
    r
  }

  /** The names invoked by a walk over `keys`, in walk order. */
  function Dispatched<E>(keys: seq<Bytes>, m: map<Bytes, Handler<E>>, event: E): seq<Bytes>
    requires forall k :: k in keys ==> k in m
    decreases |keys|
  {
    if keys == [] then []
    else
      var name := keys[|keys| - 1];
      Dispatched(keys[..|keys| - 1], m, event) + if Invoked(m[name], name, event) then [name] else []
  }

  /** Walking one more key appends that key's invocation, if any. */
  lemma DispatchedSnoc<E>(keys: seq<Bytes>, name: Bytes, m: map<Bytes, Handler<E>>, event: E)
    requires forall k :: k in keys ==> k in m
    requires name in m
    ensures Dispatched(keys + [name], m, event)
            == Dispatched(keys, m, event) + if Invoked(m[name], name, event) then [name] else []
  {
    assert (keys + [name])[..|keys|] == keys;
  }

  /** The names one dispatch of `event` over the map `m` invokes, in invocation order. */
  ghost function Trace<E>(m: map<Bytes, Handler<E>>, event: E): seq<Bytes> {
    Dispatched(SortedKeys(m.Keys), m, event)
  }

  /** A walk invokes exactly the names of `keys` whose handler is invoked. */
  lemma {:induction false} DispatchedMembers<E>(keys: seq<Bytes>, m: map<Bytes, Handler<E>>, event: E)
    requires forall k :: k in keys ==> k in m
    ensures forall n :: n in Dispatched(keys, m, event) <==> n in keys && Invoked(m[n], n, event)
    decreases |keys|
  {
    if keys != [] {
      var init := keys[..|keys| - 1];
      assert keys == init + [keys[|keys| - 1]];
      DispatchedMembers(init, m, event);
    }
  }

  /** A walk over ascending keys invokes in ascending order. */
  lemma {:induction false} DispatchedAscending<E>(keys: seq<Bytes>, m: map<Bytes, Handler<E>>, event: E)
    requires forall k :: k in keys ==> k in m
    requires Ascending(keys)
    ensures Ascending(Dispatched(keys, m, event))
    decreases |keys|
  {
    if keys != [] {
      var last := keys[|keys| - 1];
      var init := keys[..|keys| - 1];
      DispatchedAscending(init, m, event);
      DispatchedMembers(init, m, event);
      var prefix := Dispatched(init, m, event);
      forall i | 0 <= i < |prefix|
        ensures Less(prefix[i], last)
      {
        assert prefix[i] in init;
        var j :| 0 <= j < |init| && init[j] == prefix[i];
      }
    }
  }

  /**
    One dispatch invokes, in strictly ascending name order, exactly the enabled names whose
    guard accepts the event and whose handler has a callback; any sequence with those two
    properties is that trace.
   */
  lemma TraceCharacterization<E>(m: map<Bytes, Handler<E>>, event: E, t: seq<Bytes>)
    ensures t == Trace(m, event) <==>
              Ascending(t) && forall n :: n in t <==> n in m && Invoked(m[n], n, event)
  {
    var keys := SortedKeys(m.Keys);
    DispatchedAscending(keys, m, event);
    DispatchedMembers(keys, m, event);
    if Ascending(t) && forall n :: n in t <==> n in m && Invoked(m[n], n, event) {
      AscendingDetermined(t, Trace(m, event));
    }
  }

  /** Each name occurs in a dispatch at most once; exactly once when its handler is invoked. */
  lemma InvokedOnce<E>(m: map<Bytes, Handler<E>>, event: E, name: Bytes)
    ensures multiset(Trace(m, event))[name] == if name in m && Invoked(m[name], name, event) then 1 else 0
  {
    var t := Trace(m, event);
    TraceCharacterization(m, event, t);
    AscendingDistinct(t);
    DistinctOccursOnce(t, name);
  }

  /** A disabled handler is never invoked, whatever its guard says, yet it stays registered. */
  lemma DisabledNeverInvoked<E>(m: map<Bytes, Handler<E>>, name: Bytes, h: Handler<E>, event: E)
    requires Disabled(name)
    ensures name in Register(m, name, h)
    ensures name !in Trace(Register(m, name, h), event)
  {
    TraceCharacterization(Register(m, name, h), event, Trace(Register(m, name, h), event));
  }

  /**
    Registering a name twice leaves one entry holding the second handler, and one dispatch
    then invokes that name at most once: once exactly when the second handler is invoked.
   */
  lemma LastWriteWins<E>(m: map<Bytes, Handler<E>>, name: Bytes, first: Handler<E>, second: Handler<E>, event: E)
    ensures Register(Register(m, name, first), name, second) == Register(m, name, second)
    ensures multiset(Trace(Register(Register(m, name, first), name, second), event))[name]
            == if Invoked(second, name, event) then 1 else 0
  {
    var twice := Register(Register(m, name, first), name, second);
    assert twice == Register(m, name, second);
    InvokedOnce(twice, event, name);
  }

  /**
    The process-wide registries: one `std::map` from name to handler per category
    (`_HandlerMapWrapper::handlers`). They start empty and are only ever added to.
   */
  class Registry<E> {
    var message: map<Bytes, Handler<E>>
    var notice: map<Bytes, Handler<E>>
    var request: map<Bytes, Handler<E>>

    constructor ()
      ensures message == map[] && notice == map[] && request == map[]
    {
      message, notice, request := map[], map[], map[];
    }

    /** `_HandlerMapWrapper::handlers<E>()`: the map of the event's category. */
    function Handlers(category: Category): (m: map<Bytes, Handler<E>>)
      reads this
      ensures category == Message ==> m == message
      ensures category == Notice ==> m == notice
      ensures category == Request ==> m == request
    {
      match category
      case Message => message
      case Notice => notice
      case Request => request
    }

    /**
      `add_handler`: sets the entry for `name` in the category's map, leaving every other
      entry and the other categories' maps as they were; it always reports success.
     */
    method AddHandler(category: Category, name: Bytes, h: Handler<E>) returns (ok: bool)
      modifies this
      ensures ok
      ensures Handlers(category) == Register(old(Handlers(category)), name, h)
      ensures forall other :: other != category ==> Handlers(other) == old(Handlers(other))
    {
      match category {
        case Message => message := Register(message, name, h);
        case Notice => notice := Register(notice, name, h);
        case Request => request := Register(request, name, h);
      }
      ok := true;
    }

    /**
      `run_handlers`: walks the category's map in ascending key order, skipping disabled names,
      and runs each handler whose guard accepts the event. Returns the names whose callback
      was invoked, in order; the registry is not changed.
     */
    method RunHandlers(category: Category, event: E) returns (trace: seq<Bytes>)
      ensures trace == Trace(Handlers(category), event)
      ensures Ascending(trace)
      ensures forall n :: n in trace <==> n in Handlers(category) && Invoked(Handlers(category)[n], n, event)
    {
      var handlers := Handlers(category);
      var rest := handlers.Keys;
      ghost var visited: seq<Bytes> := [];
      trace := [];
      while rest != {}
        invariant rest <= handlers.Keys
        invariant forall k :: k in visited ==> k in handlers
        invariant visited + SortedKeys(rest) == SortedKeys(handlers.Keys)
        invariant trace == Dispatched(visited, handlers, event)
        decreases |rest|
      {
        LeastExists(rest);
        var name :| IsLeast(name, rest);
        WalkAdvances(visited, rest, name);
        var handler := handlers[name];
        if !StartsWith(name, ReservedPrefix) && CheckCondition(handler, event) {
          var calls := Run(handler);
          if calls != [] {
            trace := trace + [name];
          }
        }
        DispatchedSnoc(visited, name, handlers, event);
        visited := visited + [name];
        rest := rest - {name};
      }
      assert visited == SortedKeys(handlers.Keys);
      TraceCharacterization(handlers, event, trace);
    }
  }

  /** The names of the dispatch example: "a_handler", "b_handler" and the disabled "_hidden". */
  lemma ExampleNames()
    ensures Less(FromAscii("a_handler"), FromAscii("b_handler"))
    ensures !Disabled(FromAscii("a_handler")) && !Disabled(FromAscii("b_handler"))
    ensures Disabled(FromAscii("_hidden"))
  {
    var a, b, hidden := FromAscii("a_handler"), FromAscii("b_handler"), FromAscii("_hidden");
    assert a[0] == 0x61 && b[0] == 0x62 && hidden[0] == 0x5F;
    assert hidden[..1] == ReservedPrefix;
  }

  /**
    Handlers registered as `b`, `a` and `hidden`, each with a callback and no guard, where
    `a` sorts before `b` and only `hidden` is disabled: one dispatch invokes `a` and then `b`,
    and never `hidden`.
   */
  lemma ExampleTrace<E>(a: Bytes, b: Bytes, hidden: Bytes, event: E, f: Callback, g: Callback, x: Callback)
    requires Less(a, b) && !Disabled(a) && !Disabled(b) && Disabled(hidden)
    ensures
      var m := Register(Register(Register(map[], b, Handler(Some(f), None)), a, Handler(Some(g), None)),
                        hidden, Handler(Some(x), None));
      Trace(m, event) == [a, b]
  {
    var m := Register(Register(Register(map[], b, Handler(Some(f), None)), a, Handler(Some(g), None)),
                      hidden, Handler(Some(x), None));
    LessIrreflexive(a);
    assert m.Keys == {a, b, hidden};
    assert Invoked(m[a], a, event) && Invoked(m[b], b, event);
    TraceCharacterization(m, event, [a, b]);
  }

  /**
    A plugin that registers message handlers "b_handler", "a_handler" and "_hidden", each with
    a callback and no guard: dispatching a message invokes "a_handler" and then "b_handler",
    and never "_hidden".
   */
  method DispatchExample<E>(event: E) returns (trace: seq<Bytes>)
    ensures trace == [FromAscii("a_handler"), FromAscii("b_handler")]
  {
    var a, b, hidden := FromAscii("a_handler"), FromAscii("b_handler"), FromAscii("_hidden");
    var registry := new Registry<E>();
    var _ := registry.AddHandler(Message, b, Handler(Some(1), None));
    var _ := registry.AddHandler(Message, a, Handler(Some(2), None));
    var _ := registry.AddHandler(Message, hidden, Handler(Some(3), None));
    trace := registry.RunHandlers(Message, event);
    ExampleNames();
    ExampleTrace(a, b, hidden, event, 1, 2, 3);
  }
}

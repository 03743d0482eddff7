# dolores handler registry and dispatcher, in Dafny

This project models the handler registry and dispatcher of the dolores plugin SDK
(`dolores/handler.hpp`), through which a chat-bot plugin registers callbacks for message,
notice and request events, and proves what one registration and one dispatch do.

- A **handler** (`Dolores.Handler`) pairs an optional callback with an optional guard. Its
  guard check passes when there is no guard. Running it invokes its callback once, or
  does nothing when there is no callback.
- The **registry** (`Dolores.Registry`) holds three maps from handler name to handler, one
  per event category (`Message`, `Notice`, `Request`). These stand for the maps of the
  three base event types `cq::MessageEvent`, `cq::NoticeEvent` and `cq::RequestEvent`;
  the category is an explicit argument.
- **`AddHandler`** inserts the entry for a name, or overwrites it. The last registration
  wins, and the call always returns `true`.
- **`RunHandlers`** walks the category's map in ascending key order. That is the order of
  `std::map<std::string, _>`: byte-wise lexicographic (`Strings.Less`), not registration
  order. It skips names starting with `_`, checks each remaining handler's guard on the
  event, and runs every handler that passes. Its result is the trace of names whose callback
  was invoked; the registry itself is not changed.

Names are byte strings (`Strings.Bytes`, bytes `0..255`), because `std::string` compares
its characters as `unsigned char`. Events are an opaque type parameter. Guards are total
functions from events to `bool`. A callback is represented only by its identity (`nat`).

The ordered walk of the map is modelled by taking, at each step, the least key not yet
visited (`OrderedKeys.IsLeast`). The ghost function `OrderedKeys.SortedKeys` is the whole
walk; `OrderedKeys.AscendingDetermined` shows it is the only ascending listing of the keys.

Files: `wrappers.dfy` (`Option`), `strings.dfy` (byte strings, their order and the prefix
test), `ordered_keys.dfy` (the key order of a map), `handler.dfy` (handlers, registry and
dispatch).

## Model

| member | source | states |
|---|---|---|
| `Dolores.CheckCondition` | cytus-calculator/extern/cqcppsdk/include/dolores/handler.hpp:23-26 | a handler without a guard passes every event; with a guard, the result is exactly that guard's verdict |
| `Dolores.Run` | cytus-calculator/extern/cqcppsdk/include/dolores/handler.hpp:28-31 | no callback: nothing is invoked; a callback: that callback and only it is invoked, exactly once |
| `Dolores.Register` | cytus-calculator/extern/cqcppsdk/include/dolores/handler.hpp:60 | after `handlers[name] = h` the map sends `name` to `h`, keeps every other key and value, and has one more key exactly when `name` was new |
| `Dolores.Registry.Handlers` | cytus-calculator/extern/cqcppsdk/include/dolores/handler.hpp:42-54 | `Message` selects the message map, `Notice` the notice map, `Request` the request map |
| `Dolores.Registry.constructor` | cytus-calculator/extern/cqcppsdk/include/dolores/handler.hpp:44-53 | the three category maps start empty |
| `Dolores.Registry.AddHandler` | cytus-calculator/extern/cqcppsdk/include/dolores/handler.hpp:57-62 | the selected category's map becomes `Register` of its old value, the other two categories' maps are unchanged, and the call returns `true` |
| `Dolores.Registry.RunHandlers` | cytus-calculator/extern/cqcppsdk/include/dolores/handler.hpp:64-82 | the walk of the category's map yields the dispatch trace: strictly ascending, and a name is in it exactly when it is registered, not disabled, its guard accepts the event and it has a callback; the registry is not modified |
| `Dolores.DispatchedMembers` | cytus-calculator/extern/cqcppsdk/include/dolores/handler.hpp:67-81 | a walk over any keys invokes exactly the visited names that are enabled, pass their guard and have a callback |
| `Dolores.DispatchedAscending` | cytus-calculator/extern/cqcppsdk/include/dolores/handler.hpp:66-67 | a walk over ascending keys invokes names in ascending order |
| `Dolores.TraceCharacterization` | cytus-calculator/extern/cqcppsdk/include/dolores/handler.hpp:65-82 | a sequence is the dispatch trace if and only if it is strictly ascending and holds exactly the invoked names |
| `Dolores.InvokedOnce` | cytus-calculator/extern/cqcppsdk/include/dolores/handler.hpp:67-81 | in one dispatch a name occurs once when its handler is invoked and never otherwise |
| `Dolores.DisabledNeverInvoked` | cytus-calculator/extern/cqcppsdk/include/dolores/handler.hpp:68 | a name starting with `_` stays registered yet is never invoked, whatever its guard says |
| `Dolores.LastWriteWins` | cytus-calculator/extern/cqcppsdk/include/dolores/handler.hpp:60 | registering a name twice equals registering only the second handler, and a dispatch then invokes that name once if the second handler is invoked, else never |
| `Dolores.ExampleNames` | cytus-calculator/extern/cqcppsdk/include/dolores/handler.hpp:68 | `"a_handler"` sorts before `"b_handler"`, both are enabled, and `"_hidden"` is disabled |
| `Dolores.ExampleTrace` | cytus-calculator/extern/cqcppsdk/include/dolores/handler.hpp:64-82 | with handlers registered as `b`, `a`, `hidden` (`a` before `b`, only `hidden` disabled, all unguarded with callbacks) the trace is exactly `[a, b]` |
| `Dolores.DispatchExample` | cytus-calculator/extern/cqcppsdk/include/dolores/handler.hpp:57-82 | registering `"b_handler"`, `"a_handler"` and `"_hidden"` as message handlers and dispatching one message invokes `"a_handler"` then `"b_handler"` and nothing else |
| `Strings.Less` | cytus-calculator/extern/cqcppsdk/include/dolores/handler.hpp:40 | the key comparator of the handler maps: byte-wise lexicographic with bytes compared as unsigned values; no name sorts before itself, a proper prefix sorts before the longer name, and a name whose first byte is smaller sorts first |
| `Strings.LessIsCompare` | cytus-calculator/extern/cqcppsdk/include/dolores/handler.hpp:40 | the key order is `std::string` comparison: `a < b` if and only if `a` is a proper prefix of `b` or `a` has the smaller byte at the first difference |
| `Strings.LessIrreflexive` | cytus-calculator/extern/cqcppsdk/include/dolores/handler.hpp:40 | no name sorts before itself |
| `Strings.LessTransitive` | cytus-calculator/extern/cqcppsdk/include/dolores/handler.hpp:40 | the key order is transitive |
| `Strings.LessTotal` | cytus-calculator/extern/cqcppsdk/include/dolores/handler.hpp:40 | any two different names are ordered one way or the other |
| `Strings.LessAsymmetric` | cytus-calculator/extern/cqcppsdk/include/dolores/handler.hpp:40 | two names never sort before each other |
| `OrderedKeys.LeastExists` | cytus-calculator/extern/cqcppsdk/include/dolores/handler.hpp:67 | every non-empty set of keys has a least key, where the walk starts |
| `OrderedKeys.LeastUnique` | cytus-calculator/extern/cqcppsdk/include/dolores/handler.hpp:67 | that least key is unique |
| `OrderedKeys.SortedKeys` | cytus-calculator/extern/cqcppsdk/include/dolores/handler.hpp:67 | the walk over a map's keys is strictly ascending and visits each key, and only keys, once |
| `OrderedKeys.SortedKeysStartsAtLeast` | cytus-calculator/extern/cqcppsdk/include/dolores/handler.hpp:67 | the walk visits the least key first and then walks the remaining keys |
| `OrderedKeys.AscendingDetermined` | cytus-calculator/extern/cqcppsdk/include/dolores/handler.hpp:67 | two strictly ascending sequences with the same elements are equal, so the walk order is fully determined by the key set |
| `OrderedKeys.AscendingDistinct` | cytus-calculator/extern/cqcppsdk/include/dolores/handler.hpp:67 | a strictly ascending walk visits no key twice |

## Left out

- The registration macros `dolores_on_message`, `dolores_on_notice` and `dolores_on_request` (handler.hpp:85-107). They only declare a callback and call `add_handler` during static initialisation; the model has `AddHandler` itself.
- The guard's internals (`Condition`, `cond::All`). `condition.hpp` is not part of this model, so a guard is an arbitrary total predicate on events.
- Sessions (`MessageSession`, `NoticeSession`, `RequestSession`) and what callbacks do. `session.hpp` is not part of this model, and callbacks talk to the external bot host; a dispatch records only which names have their callback invoked.
- `string::startswith` is not part of this model; it is specified as a prefix test (`Strings.StartsWith`).
- A null `std::shared_ptr<Handler>` stored in a map. The C++ code would dereference it in `run_handlers`; the model's maps hold handler values, so that case cannot arise.
- Exceptions thrown by a guard or a callback, which the C++ code lets propagate to the host. Guards are total functions here, and callbacks have no modelled behaviour.
- Process-wide static lifetime, `shared_ptr`/`std::function` ownership and the template machinery. The registry is an explicit object, and the category an explicit argument.
- Maps of derived event types. `_HandlerMapWrapper::handlers<E>()` is a function template, so every event type `E` it is instantiated with gets its own static map. `add_handler` only accepts handlers of the three base event types, but `run_handlers(const E &)` takes `E` from the static type of its argument; called with a derived event type, it walks a separate map that nothing can fill and invokes nothing. The model has only the three base-type maps and assumes `run_handlers` is called with the category's base event type.
- Thread safety. The C++ code has no synchronisation and relies on all registration happening before the first dispatch; the model is sequential.
- Registration during a dispatch. `run_handlers` walks the live map, so a callback that calls `add_handler` mid-walk could make the C++ loop visit the new entry or run the replacing handler; `RunHandlers` walks the map as it was when the dispatch started, so callbacks are assumed not to call `add_handler` during a dispatch.

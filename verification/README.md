# exe-cacher message bus, modelled in Dafny

exe-cacher is a small message bus over Redis publish/subscribe. A `Cacher`
owns one channel. `sendMessage` publishes a message as the text
`<id>;<json data>`. The subscription callback splits every inbound text at
its first `;`, looks the id up in a registry of listener methods, parses the
rest as a JSON object, and hands it to each registered listener.
`registerListener` fills the registry from the methods of a listener object
that carry an `@IncomingMessageHandler(id)` annotation.

The repository holds two near-identical copies of `Cacher` whose failure
behaviour differs:

- `com.exe.cacher`: each listener call is isolated. A handler whose first
  parameter is not a `JsonObject` is skipped.
- `pt.jose27iwnl.cacher`: the first listener that throws ends the message.
  A misdeclared handler makes registration throw, and the handlers it
  already added stay registered.

The model is functional. Strings are `seq<char>`. The registry is a
`map<string, seq<ListenerData>>`. Each operation is a pure function that
returns the new registry, a delivery trace, or a send outcome.

- `wrappers.dfy` (`Wrappers`): `Option` and `Result`.
- `java_text.dfy` (`JavaText`): `indexOf`, `equalsIgnoreCase` and `trim`.
- `json.dfy` (`Json`): the Gson instance as a parameter, plus the law it
  is assumed to obey.
- `envelope.dfy` (`Envelope`): the wire text and its split.
- `listeners.dfy` (`Listeners`): method declarations, listener records, the
  registry, and the reference definition of what registration adds.
- `bus.dfy` (`Bus`): the `Cacher` state, inbound routing (shared by both
  copies), and `sendMessage`.
- `exe_cacher.dfy` (`ExeCacher`) and `pt_cacher.dfy` (`PtCacher`): the two
  copies.
- `credentials.dfy` (`Credentials`): `RedisCredentials` and its `Builder`.

Outside collaborators become parameters:

- Gson is `Json.Gson(toTree, render, parse)`. `parse` returns `None` where
  Gson throws `JsonParseException`. The round-trip law `Json.RoundTrips` is
  a precondition of the lemmas that need it.
- Reflection becomes explicit `MethodDecl(name, handlerId, params)` records,
  listed in the order `getDeclaredMethods` would give them.
- A listener body throwing on a payload is a parameter `throws`.
  `Method.invoke` also throws when the method takes more than one argument
  (`Listeners.InvokeThrows`).
- The Redis side of `sendMessage` is a parameter `Transport(resource, publish)`.
  `resource` is the exception `jedisPool.getResource()` throws, or `None`.
  `publish(channel, body)` is the exception the publish throws, or `None`
  when the message goes out.
- Gson's `toJsonTree` is `toTree`, which returns `None` where Gson throws
  (a NaN or infinite double under the default settings).

Three facts about the code that the model keeps:

- Registration is not atomic. The `pt` copy keeps the records added before
  a misdeclared handler, then throws. The `com.exe` copy skips the
  misdeclared handler and carries on.
- Only a null body is ignored. An empty body has no `;`, so it is dropped
  as malformed.
- Only the `com.exe` copy isolates listener calls. In the `pt` copy the
  first listener that throws ends the message (see Findings).

## Model

| member | source | states |
|---|---|---|
| JavaText.IndexOf | src/main/java/com/exe/cacher/Cacher.java:75 | the result is -1 exactly when the char is absent; otherwise it is the position of its first occurrence |
| JavaText.EqualsIgnoreCase | src/main/java/com/exe/cacher/Cacher.java:70 | names that match ignoring case have the same length, and equal names always match |
| JavaText.EqualsIgnoreCaseIffSameFolding | src/main/java/com/exe/cacher/Cacher.java:70 | two channel names match ignoring case exactly when their case-folded spellings are equal |
| JavaText.EqualsIgnoreCaseIsEquivalence | src/main/java/pt/jose27iwnl/cacher/Cacher.java:51 | the case-insensitive channel test is reflexive, symmetric and transitive, so the two copies' opposite argument orders agree |
| JavaText.Trim | src/main/java/com/exe/cacher/redis/RedisCredentials.java:27 | trim's result is a slice of the input that neither starts nor ends with a char at or below U+0020, and every char cut off before or after it is at or below U+0020 |
| JavaText.TrimEmptyIffAllTrimmed | src/main/java/com/exe/cacher/redis/RedisCredentials.java:27 | a string trims to empty exactly when all its chars are at or below U+0020 |
| Envelope.Encode | src/main/java/com/exe/cacher/Cacher.java:116 | the wire text is the id, then one `;`, then the payload, with nothing added or lost |
| Envelope.Split | src/main/java/com/exe/cacher/Cacher.java:75-81 | a body without `;` is malformed; otherwise the id has no `;` and the body is exactly id, `;`, payload |
| Envelope.SplitEncode | src/main/java/com/exe/cacher/Cacher.java:116 | decoding the encoding of a `;`-free id gives back that id and the whole payload text, later `;` included |
| Envelope.FirstSeparatorWins | src/main/java/pt/jose27iwnl/cacher/Cacher.java:53-59 | "a;b;c" splits into id "a" and payload "b;c" |
| Envelope.SeparatorInIdIsMisread | src/main/java/pt/jose27iwnl/cacher/Cacher.java:107 | an id containing `;` is not escaped: its envelope decodes to a strictly shorter id, the part before its first `;` |
| Listeners.Selected | src/main/java/com/exe/cacher/Cacher.java:127-133 | every record registration adds for an id belongs to the owner, carries that id, and comes from a qualifying method annotated with that id |
| Listeners.MethodDecl.Qualifies | src/main/java/com/exe/cacher/Cacher.java:129 | a method that gets a record is annotated and takes at least one parameter |
| Listeners.MethodDecl.Misdeclared | src/main/java/pt/jose27iwnl/cacher/Cacher.java:120-122 | every annotated method with a parameter either qualifies or is misdeclared, and never both |
| Listeners.SelectedNonEmptyIffQualifying | src/main/java/com/exe/cacher/Cacher.java:129-132 | an id gets records exactly when some qualifying method names it |
| Listeners.AddListener | src/main/java/com/exe/cacher/Cacher.java:130-132 | one qualifying method is appended at the end of its id's list, and the list is created if absent; other methods and other ids are untouched |
| Listeners.InvokeThrows | src/main/java/com/exe/cacher/Cacher.java:99 | invoking with the one payload argument always throws for a method not taking exactly one parameter; otherwise it throws exactly when the handler body does |
| Bus.Accepts | src/main/java/com/exe/cacher/Cacher.java:70 | traffic is taken exactly when the channel names fold to the same spelling and the body is not null |
| Bus.Route | src/main/java/com/exe/cacher/Cacher.java:69-85 | traffic is ignored exactly when the channel differs up to case or the body is null; malformed exactly when there is no `;`; unrouted only when the id has no list; otherwise the payload parse decides between unparsable and the id's full listener list |
| Bus.UnroutedNeverParses | src/main/java/com/exe/cacher/Cacher.java:82-85 | when the id has no listeners, the outcome does not depend on the parser, so the payload is never read |
| Bus.Wire | src/main/java/com/exe/cacher/Cacher.java:115-116 | there is a wire text exactly when the data serialises, and it is then the id, `;` and the rendered tree, whatever the id contains; for a `;`-free id it splits back into that id and the serialised data |
| Bus.Attempt | src/main/java/com/exe/cacher/Cacher.java:114-118 | the try block ends in the first exception in source order (pool, then serialisation, then publish), each exactly when the steps before it succeeded and it threw; it ends cleanly exactly when all three succeed |
| Bus.SendMessage | src/main/java/com/exe/cacher/Cacher.java:113-123 | publishes exactly when the try block ends cleanly, and then the body is the wire text on the bus channel; otherwise the exception reaches the handler exactly when one is given, and is swallowed otherwise |
| Bus.UnserializableNeverPublished | src/main/java/com/exe/cacher/Cacher.java:114-121 | data that cannot be serialised is never published and the outcome does not depend on the publish; with a connection, the serialisation failure is reported or swallowed |
| Bus.PublishedRoutesBack | src/main/java/com/exe/cacher/Cacher.java:115-117 | what is published with a `;`-free id routes, on any bus of that channel with the same codec, to exactly the id's listeners with a payload equal to the data sent, or is dropped as unrouted |
| Bus.PublishedSeparatorIdIsMisread | src/main/java/com/exe/cacher/Cacher.java:116 | a published message whose id contains `;` is read by every receiver under the strictly different id before its first `;` |
| ExeCacher.InvokeEach | src/main/java/com/exe/cacher/Cacher.java:97-103 | every listener is called, in list order, and each call's failure is recorded against that call alone |
| ExeCacher.HandleMessage | src/main/java/com/exe/cacher/Cacher.java:69-95 | drops exactly what routing drops, with the same reason; otherwise the id and payload are those routing found, and every listener of the id is called in registration order with that payload |
| ExeCacher.ListenersCalledRegardlessOfFailures | src/main/java/com/exe/cacher/Cacher.java:86-88 | which listeners are called, and in what order, is the same whichever of them throw: a failure never stops a later listener |
| ExeCacher.RegisterListener | src/main/java/com/exe/cacher/Cacher.java:125-135 | each id's list becomes the old list followed by the qualifying methods for that id, in declaration order; the keys grow by exactly the qualifying ids |
| ExeCacher.RegisterLeavesOtherIds | src/main/java/com/exe/cacher/Cacher.java:131 | an id no qualifying method names keeps its list, and stays absent if it was absent |
| ExeCacher.RegisterKeepsWellFormed | src/main/java/com/exe/cacher/Cacher.java:129-132 | registration keeps every list non-empty and every record under its own method's id |
| ExeCacher.RegisteredHandlersReceivePublished | src/main/java/com/exe/cacher/Cacher.java:125-135 | after registering an owner, a published message with a `;`-free id reaches the id's earlier listeners and then the owner's qualifying handlers for it, in declaration order, each with the data sent |
| PtCacher.InvokeUntilThrow | src/main/java/pt/jose27iwnl/cacher/Cacher.java:64-71 | listeners are called in order; every call before the last succeeded, and the loop ends early only right after a call that threw |
| PtCacher.OnMessage | src/main/java/pt/jose27iwnl/cacher/Cacher.java:50-74 | drops exactly what routing drops; otherwise the id and payload are those routing found, and the id's listeners run in order up to and including the first one that throws |
| PtCacher.UntilThrowIsPrefixOfEach | src/main/java/pt/jose27iwnl/cacher/Cacher.java:64-66 | the aborting loop's trace is a prefix of the isolating loop's, and equal to it exactly when no call but the last throws |
| PtCacher.OnMessageAgreesWithHandleMessage | src/main/java/pt/jose27iwnl/cacher/Cacher.java:51-72 | the two copies drop the same messages for the same reasons, and dispatch the same id and payload with prefix-related traces |
| PtCacher.FirstListenerFailureSilencesRest | src/main/java/pt/jose27iwnl/cacher/Cacher.java:64-71 | with two listeners where the first throws, this copy calls one listener while the isolating copy calls both |
| PtCacher.FirstMisdeclared | src/main/java/pt/jose27iwnl/cacher/Cacher.java:120-124 | the position found holds the first handler whose first parameter is not a JsonObject, or is the length when there is none |
| PtCacher.RegisterListener | src/main/java/pt/jose27iwnl/cacher/Cacher.java:116-131 | the registry equals the other copy's registration of the methods before the first misdeclared handler, which raises the error; with no misdeclared handler there is no error |
| PtCacher.RegisterAgreesWhenWellDeclared | src/main/java/pt/jose27iwnl/cacher/Cacher.java:118-129 | without misdeclared handlers both copies register the same records, and this one raises nothing |
| PtCacher.SendMessage | src/main/java/pt/jose27iwnl/cacher/Cacher.java:100-102 | the one-argument overload never reports a failure; it swallows exactly the exceptions of the try block (pool, serialisation or publish) |
| Credentials.ShouldAuthenticateIffVisibleChar | src/main/java/com/exe/cacher/redis/RedisCredentials.java:26-28 | authentication is wanted exactly when the password is non-null and has a char above U+0020 |
| Credentials.RedisCredentials.ShouldAuthenticate | src/main/java/com/exe/cacher/redis/RedisCredentials.java:27 | a null password, or one made only of chars at or below U+0020, never asks for authentication |
| Credentials.Default | src/main/java/com/exe/cacher/redis/RedisCredentials.java:12-17 | localhost, port 6379, null password and database 0; hence no authentication |
| Credentials.Create | src/main/java/com/exe/cacher/redis/RedisCredentials.java:19-24 | each argument is stored unchanged in its own field |
| Credentials.RedisCredentials.SetHost | src/main/java/com/exe/cacher/redis/RedisCredentials.java:30-32 | the host changes and the other three fields do not |
| Credentials.RedisCredentials.SetPort | src/main/java/com/exe/cacher/redis/RedisCredentials.java:34-36 | the port changes and the other three fields do not |
| Credentials.RedisCredentials.SetPassword | src/main/java/com/exe/cacher/redis/RedisCredentials.java:38-40 | the password changes and the other three fields do not |
| Credentials.RedisCredentials.SetDbId | src/main/java/com/exe/cacher/redis/RedisCredentials.java:42-44 | the database id changes and the other three fields do not |
| Credentials.NewBuilder | src/main/java/com/exe/cacher/redis/RedisCredentials.java:47 | a new builder starts from the default credentials |
| Credentials.Builder.Host | src/main/java/com/exe/cacher/redis/RedisCredentials.java:49-52 | the builder's credentials get the host through the setter |
| Credentials.Builder.Port | src/main/java/com/exe/cacher/redis/RedisCredentials.java:54-57 | the builder's credentials get the port through the setter |
| Credentials.Builder.Password | src/main/java/com/exe/cacher/redis/RedisCredentials.java:59-62 | the builder's credentials get the password through the setter |
| Credentials.Builder.DbId | src/main/java/com/exe/cacher/redis/RedisCredentials.java:64-67 | the builder's credentials get the database id through the setter |
| Credentials.Builder.Build | src/main/java/com/exe/cacher/redis/RedisCredentials.java:69-71 | build returns the credentials the builder holds |
| Credentials.BuildKeepsLastSetting | src/main/java/com/exe/cacher/redis/RedisCredentials.java:46-71 | after any sequence of builder calls, each field holds the last value set for it, or its starting value |
| Credentials.ConstructorMatchesBuilder | src/main/java/com/exe/cacher/redis/RedisCredentials.java:19-24 | the four-argument constructor equals a fresh builder that sets all four fields |

## Left out

- The Redis transport is left out: the pool itself, `subscribe`, the blocking receive loop, synchronous or asynchronous setup (`ForkJoinPool`, `CompletableFuture`), and `close()`. Taking a connection and publishing are each only a success or an exception.
- Closing the connection at the end of `sendMessage`'s try-with-resources is not modelled. An exception thrown by that close would also go to the handler.
- Bus.SendMessage: a `java.lang.Error` thrown inside the try block is not modelled. One example is a `StackOverflowError` while serialising self-referencing data. `catch (Exception e)` does not catch it, so it propagates to the caller, and the model has no outcome for that.
- PtCacher.SendMessage: the same `java.lang.Error` case is not modelled, for the same reason.
- `src/main/java/pt/jose27iwnl/cacher/redis/Redis.java` is left out. It builds a `JedisPool` and wraps third-party calls.
- Concurrency is left out: `HashMap` in one copy, `ConcurrentHashMap` in the other. The model is single-threaded.
- Gson internals are left out. Serialisation and parsing are parameters. One Gson behaviour is not modelled: `fromJson` returns null on empty or whitespace-only text, and listeners are then called with null.
- Logging is left out, and so is the console output of `MessageExceptionHandler`. An exception handler that itself throws is not modelled.
- Reflection access failures are not modelled apart from arity. One example is `IllegalAccessException` on a private handler. Such failures fall under the `throws` parameter.
- The order of `getDeclaredMethods` is whatever the input sequence gives.
- JavaText.EqualsIgnoreCase: folds only the ASCII letters A-Z. Java's `equalsIgnoreCase` also folds other Unicode letters, and the model does not carry those tables.
- JavaText.IndexOf: works on Dafny chars, not on UTF-16 code units. The separator is ASCII, so the split point is the same.
- ExeCacher.HandleMessage: a listener that registers a handler for the id being dispatched is not modelled. `computeIfAbsent(...).add` (Cacher.java:131-132) appends to the list the loop at line 86 is iterating, so the next step of the loop throws `ConcurrentModificationException`. The catch at line 92 takes it, and the later listeners are not called. The model keeps the registry fixed for the whole dispatch, and `throws` has no side effects.
- PtCacher.OnMessage: the same re-entrant registration is not modelled. `get(messageId).add` (pt Cacher.java:128) changes the list the loop at line 64 iterates, and the catch at line 70 ends the message.
- Listeners receive one shared `JsonObject`. Changes a listener makes to it are seen by the later listeners; the model hands every listener the same immutable tree.
- A null incoming channel is not modelled. The com.exe copy ignores it; the pt copy calls `equalsIgnoreCase` on it outside its try block and would throw.
- A null message id or null data is not modelled. Java renders a null id as the text `null`.
- Builder: aliasing is not modelled. A call made after `build()` also changes the object already returned; value semantics cannot express that.
- Json.RoundTrips is assumed, not proved. It is a precondition on the lemmas that need it, since Gson is not part of this model.

## Findings

| source | as written | input that shows it | evidently intended | confidence | as-written member | corrected member |
|---|---|---|---|---|---|---|
| src/main/java/pt/jose27iwnl/cacher/Cacher.java:64-71 | the `try` encloses the whole listener loop, so the first listener that throws skips every later listener of that message | two listeners registered for one id, where the first throws on the payload | each listener call is isolated, as the com.exe copy does with `invokeListener` | medium (not executed) | PtCacher.FirstListenerFailureSilencesRest | ExeCacher.HandleMessage |

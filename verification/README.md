# ElasticSearchTransportClient, modelled in Dafny

This project models the Elasticsearch client of the Flume Elasticsearch sink,
`ElasticSearchTransportClient`. The client is built from a list of `"host[:port]"` strings and
turns them into server addresses. It opens a REST client handle over those addresses. It then
gathers index requests into a pending bulk request (`addEvent`) and submits that request as one
bulk call (`execute`), leaving a fresh empty request behind whatever the call does. `close`
releases the handle.

Modules:

- `Outcomes` (`outcomes.dfy`): the exceptions the client can raise, plus `Result`, `Outcome` and
  `Option`.
- `JavaText` (`java_text.dfy`): the parts of `java.lang.String` and `java.lang.Integer` the
  parsing relies on. These are `trim`, `split(":")` with its dropping of trailing empty strings,
  `parseInt` with its sign, digit and 32-bit range rules, and `toString` for the round trip.
- `Addresses` (`addresses.dfy`): the per-entry trim/split/parse of `configureHostnames`, as a
  pure function with its properties and worked examples.
- `AddressList` (`address_list.dfy`): the whole list. There is one result per entry, in order,
  and the first failing entry decides the exception.
- `Client` (`transport_client.dfy`): the class itself. Its fields are the address array, the
  serializer, the request-builder factory, the pending bulk request and the current handle.
  - `configureHostnames`, `openClient`, `addEvent`, `execute` and `close` are methods that
    update those fields.
  - The two production constructors are static factory methods that return the new client, or
    the exception the Java constructor would throw.
  - The REST library is modelled by three methods that record what the client asked of it:
    building a handle, closing a handle, and a bulk call. These records are the fields `built`,
    `closedHandles` and `bulkCalls`.
  - The class invariant `Valid` says that every handle has its own id, that no handle is closed
    twice, and that the only handle built and not yet closed is the current one.

Behaviour of the address parsing and of `execute` worth knowing:

- `"a:b:c"` is not rejected. `split(":")` gives three segments, and the port is read only when
  there are exactly two, so the entry is host `"a"` on `DEFAULT_PORT` (9300)
  (`Addresses.ParseEntryManyColons`, `Addresses.ExampleManyColons`).
- The empty entry is not rejected. `"".split(":")` is `[""]`, so the entry becomes an empty host
  on the default port (`Addresses.ExampleEmptyEntry`).
- Whitespace around the host or the port is trimmed away, and the port may carry a sign and
  leading zeros: `"h : +09"` is host `h`, port 9 (`Addresses.ParseEntryTwoSegments`,
  `Addresses.ExampleSpacedEntry`).
- `execute` without a client dereferences the null `client` and raises a
  `NullPointerException` (`Error.NullPointer`), not a transport error.

Also, a trailing colon is dropped by `split`. So `"host:"` uses the default port, and
`"host:9300:"` still reads port 9300 (`Addresses.ParseEntryTrailingColon`). An entry made only
of colons splits into nothing, and reading `hostPort[0]` raises
`ArrayIndexOutOfBoundsException` (`Addresses.ParseEntryIndexFailure`).

## Model

| member | source | states |
|---|---|---|
| JavaText.Trim | src/main/java/org/apache/flume/sink/elasticsearch/client/ElasticSearchTransportClient.java:141-143 | `String.trim`: the result is no longer than the input and has no character `<= ' '` at either end |
| JavaText.TrimInfix | src/main/java/org/apache/flume/sink/elasticsearch/client/ElasticSearchTransportClient.java:141-143 | trim keeps one contiguous run of the input and removes only characters `<= ' '` around it |
| JavaText.TrimOfTrimmed | src/main/java/org/apache/flume/sink/elasticsearch/client/ElasticSearchTransportClient.java:141-142 | a string with nothing trimmable at either end is its own trim |
| JavaText.TrimIdempotent | src/main/java/org/apache/flume/sink/elasticsearch/client/ElasticSearchTransportClient.java:141-142 | trimming twice equals trimming once |
| JavaText.TrimKeepsCharacters | src/main/java/org/apache/flume/sink/elasticsearch/client/ElasticSearchTransportClient.java:141 | trim introduces no character, in particular no colon |
| JavaText.TrimEndNonEmpty | src/main/java/org/apache/flume/sink/elasticsearch/client/ElasticSearchTransportClient.java:143 | a string whose trim is non-empty keeps a non-trimmable last character |
| JavaText.TrimAroundColon | src/main/java/org/apache/flume/sink/elasticsearch/client/ElasticSearchTransportClient.java:141 | trimming `a:b`, where `b` keeps a character, trims only the front of `a` and the back of `b` |
| JavaText.TrimOfTrimEnd | src/main/java/org/apache/flume/sink/elasticsearch/client/ElasticSearchTransportClient.java:141-143 | trimming the back of a segment first does not change its trim, so the trims on lines 141 and 143 compose to one trim of the port text |
| JavaText.FirstColon | src/main/java/org/apache/flume/sink/elasticsearch/client/ElasticSearchTransportClient.java:141 | the position returned is the first colon, or the length when there is none |
| JavaText.SplitAllJoin | src/main/java/org/apache/flume/sink/elasticsearch/client/ElasticSearchTransportClient.java:141 | the colon-separated segments, joined with ':', give back the input |
| JavaText.JoinSplitAll | src/main/java/org/apache/flume/sink/elasticsearch/client/ElasticSearchTransportClient.java:141 | colon-free segments joined with ':' split back into the same segments |
| JavaText.SplitAllColonFree | src/main/java/org/apache/flume/sink/elasticsearch/client/ElasticSearchTransportClient.java:141 | no segment contains a colon |
| JavaText.SplitAllFirst | src/main/java/org/apache/flume/sink/elasticsearch/client/ElasticSearchTransportClient.java:141-142 | the first segment is the text before the first colon |
| JavaText.DropTrailingEmpty | src/main/java/org/apache/flume/sink/elasticsearch/client/ElasticSearchTransportClient.java:141 | the result is a prefix of the segments whose last element, if any, is non-empty |
| JavaText.DropTrailingEmptyDropsEmpty | src/main/java/org/apache/flume/sink/elasticsearch/client/ElasticSearchTransportClient.java:141 | only empty segments are dropped |
| JavaText.Split | src/main/java/org/apache/flume/sink/elasticsearch/client/ElasticSearchTransportClient.java:141 | `String.split(":")` with limit zero: when the string has a colon, trailing empty segments are dropped, so the result never ends in an empty one |
| JavaText.SplitEmptyIff | src/main/java/org/apache/flume/sink/elasticsearch/client/ElasticSearchTransportClient.java:141-142 | `split(":")` gives no segment exactly when the string is non-empty and all colons |
| JavaText.SplitAppendColon | src/main/java/org/apache/flume/sink/elasticsearch/client/ElasticSearchTransportClient.java:141 | a trailing colon does not change what `split(":")` gives for a non-empty string |
| JavaText.SplitHostPort | src/main/java/org/apache/flume/sink/elasticsearch/client/ElasticSearchTransportClient.java:141 | colon-free host and non-empty port texts joined by ':' split into exactly those two segments |
| JavaText.ParseInt | src/main/java/org/apache/flume/sink/elasticsearch/client/ElasticSearchTransportClient.java:143 | `Integer.parseInt`: a success lies in the 32-bit range; every failure is a `NumberFormatException` |
| JavaText.ParseIntFormatInt | src/main/java/org/apache/flume/sink/elasticsearch/client/ElasticSearchTransportClient.java:143 | `parseInt` reads back every 32-bit value that `toString` writes |
| JavaText.FormatIntShape | src/main/java/org/apache/flume/sink/elasticsearch/client/ElasticSearchTransportClient.java:143 | a written number is non-empty, colon-free and untouched by trim |
| Addresses.ParseEntry | src/main/java/org/apache/flume/sink/elasticsearch/client/ElasticSearchTransportClient.java:141-144 | one entry fails only with `ArrayIndexOutOfBounds` or `NumberFormat` |
| Addresses.ParseEntryHostPort | src/main/java/org/apache/flume/sink/elasticsearch/client/ElasticSearchTransportClient.java:141-143 | `"host:port"` for a trimmed colon-free host and a 32-bit port gives exactly that host and port |
| Addresses.ParseEntryBadPort | src/main/java/org/apache/flume/sink/elasticsearch/client/ElasticSearchTransportClient.java:143 | with exactly two segments, a port text `parseInt` refuses raises `NumberFormatException` |
| Addresses.ParseEntryTwoSegments | src/main/java/org/apache/flume/sink/elasticsearch/client/ElasticSearchTransportClient.java:141-143 | for any colon-free host text and port text whose trim is non-empty, the host is the trimmed first segment and the port is `parseInt` of the trimmed second segment, or its `NumberFormatException` |
| Addresses.ParseEntryManyColons | src/main/java/org/apache/flume/sink/elasticsearch/client/ElasticSearchTransportClient.java:141-144 | three or more colon-separated segments, the last non-empty, give the trimmed first segment on `DEFAULT_PORT` whatever the later segments hold |
| Addresses.ParseEntryBareHost | src/main/java/org/apache/flume/sink/elasticsearch/client/ElasticSearchTransportClient.java:141-144 | an entry without a colon is its trimmed self on `DEFAULT_PORT` |
| Addresses.ParseEntryTrailingColon | src/main/java/org/apache/flume/sink/elasticsearch/client/ElasticSearchTransportClient.java:141-144 | appending ':' to a trimmed non-empty entry does not change its outcome |
| Addresses.ParseEntryIndexFailure | src/main/java/org/apache/flume/sink/elasticsearch/client/ElasticSearchTransportClient.java:141-142 | `hostPort[0]` fails exactly when the trimmed entry is non-empty and all colons |
| Addresses.ParseEntryHost | src/main/java/org/apache/flume/sink/elasticsearch/client/ElasticSearchTransportClient.java:141-142 | on success the host is the trimmed text before the first colon of the trimmed entry, whatever follows |
| Addresses.ExampleHostPort | src/main/java/org/apache/flume/sink/elasticsearch/client/ElasticSearchTransportClient.java:141-143 | `"es1:9300"` gives host `es1`, port 9300 |
| Addresses.ExampleBareHost | src/main/java/org/apache/flume/sink/elasticsearch/client/ElasticSearchTransportClient.java:141-144 | `"es2"` gives host `es2` on `DEFAULT_PORT` |
| Addresses.ExampleManyColons | src/main/java/org/apache/flume/sink/elasticsearch/client/ElasticSearchTransportClient.java:141-144 | `"a:b:c"` is accepted as host `a` on `DEFAULT_PORT` |
| Addresses.ExampleEmptyEntry | src/main/java/org/apache/flume/sink/elasticsearch/client/ElasticSearchTransportClient.java:141-144 | `""` is accepted as an empty host on `DEFAULT_PORT` |
| Addresses.ExampleSpacedEntry | src/main/java/org/apache/flume/sink/elasticsearch/client/ElasticSearchTransportClient.java:141-143 | `"h : +09"` gives host `h`, port 9: both segments are trimmed and `parseInt` takes the sign and the leading zero |
| Addresses.SpacedTokens | src/main/java/org/apache/flume/sink/elasticsearch/client/ElasticSearchTransportClient.java:141-143 | `"h "` and `" +09"` trim to `h` and `+09`, and `parseInt("+09")` is 9 |
| Addresses.ExampleTrailingColon | src/main/java/org/apache/flume/sink/elasticsearch/client/ElasticSearchTransportClient.java:141-144 | `"host:"` is host `host` on `DEFAULT_PORT` |
| Addresses.ExampleBadPort | src/main/java/org/apache/flume/sink/elasticsearch/client/ElasticSearchTransportClient.java:143 | `"es1:x"` raises `NumberFormatException` |
| Addresses.ExampleLoneColon | src/main/java/org/apache/flume/sink/elasticsearch/client/ElasticSearchTransportClient.java:141-142 | `":"` raises `ArrayIndexOutOfBoundsException` |
| AddressList.CollectAll | src/main/java/org/apache/flume/sink/elasticsearch/client/ElasticSearchTransportClient.java:140-146 | a successful collection has one value per result |
| AddressList.CollectAllSnoc | src/main/java/org/apache/flume/sink/elasticsearch/client/ElasticSearchTransportClient.java:140-146 | one more loop iteration: an earlier failure stays, otherwise the new result decides |
| AddressList.CollectAllSuccess | src/main/java/org/apache/flume/sink/elasticsearch/client/ElasticSearchTransportClient.java:140-146 | collecting succeeds exactly when every result succeeds, and then keeps value i at position i |
| AddressList.CollectAllFailure | src/main/java/org/apache/flume/sink/elasticsearch/client/ElasticSearchTransportClient.java:140-146 | a failed collection carries the error of the first failing result, all earlier ones succeeding |
| AddressList.CollectAllFailedPrefix | src/main/java/org/apache/flume/sink/elasticsearch/client/ElasticSearchTransportClient.java:140-146 | once a prefix fails, later entries do not change the outcome |
| AddressList.ParseEach | src/main/java/org/apache/flume/sink/elasticsearch/client/ElasticSearchTransportClient.java:140-145 | one outcome per host name, in order |
| AddressList.ParseEachAt | src/main/java/org/apache/flume/sink/elasticsearch/client/ElasticSearchTransportClient.java:140-141 | result i is the outcome of entry i |
| AddressList.ParseEachPrefix | src/main/java/org/apache/flume/sink/elasticsearch/client/ElasticSearchTransportClient.java:140-141 | the results of a prefix of the entries are the prefix of the results |
| AddressList.ParseAll | src/main/java/org/apache/flume/sink/elasticsearch/client/ElasticSearchTransportClient.java:139-146 | the outcome of the whole loop: a successful parse has one address per host name (see `ParseAllSuccess` and `ParseAllFailure` for which addresses and which exception) |
| AddressList.ParseAllStep | src/main/java/org/apache/flume/sink/elasticsearch/client/ElasticSearchTransportClient.java:140-146 | one loop iteration: a failing entry i decides the whole list's exception, a successful one extends the parsed prefix by its address |
| AddressList.ParseAllSuccess | src/main/java/org/apache/flume/sink/elasticsearch/client/ElasticSearchTransportClient.java:139-146 | the list parses exactly when every entry does, giving one address per entry, address i from entry i |
| AddressList.ParseAllFailure | src/main/java/org/apache/flume/sink/elasticsearch/client/ElasticSearchTransportClient.java:139-146 | a failed list raises the exception of its first failing entry |
| AddressList.ParseAllPair | src/main/java/org/apache/flume/sink/elasticsearch/client/ElasticSearchTransportClient.java:139-146 | two entries that parse give their two addresses in order |
| AddressList.TwoNodeConfiguration | src/main/java/org/apache/flume/sink/elasticsearch/client/ElasticSearchTransportClient.java:139-146 | `["es1:9300", "es2"]` gives `es1:9300` and `es2` on `DEFAULT_PORT` |
| Client.ToHttpHost | src/main/java/org/apache/flume/sink/elasticsearch/client/ElasticSearchTransportClient.java:198 | the endpoint of an address has its host, its port and the scheme `http` |
| Client.HostsOf | src/main/java/org/apache/flume/sink/elasticsearch/client/ElasticSearchTransportClient.java:194-199 | one endpoint per server address |
| Client.BuildHttpHosts | src/main/java/org/apache/flume/sink/elasticsearch/client/ElasticSearchTransportClient.java:194-199 | a new array with one `http` host per server address, in the same order, with the same host and port |
| Client.ElasticSearchTransportClient.BuildHandle | src/main/java/org/apache/flume/sink/elasticsearch/client/ElasticSearchTransportClient.java:200 | the builder refuses an empty host list; otherwise a new handle with its own id over exactly those hosts is recorded |
| Client.ElasticSearchTransportClient.CloseHandle | src/main/java/org/apache/flume/sink/elasticsearch/client/ElasticSearchTransportClient.java:151-157 | closing a handle is recorded whether or not it raises `IOException` |
| Client.ElasticSearchTransportClient.SubmitBulk | src/main/java/org/apache/flume/sink/elasticsearch/client/ElasticSearchTransportClient.java:179 | the call is recorded; a null request raises `NullPointerException`; with a request present, any failure is a transport error |
| Client.ElasticSearchTransportClient.constructor | src/main/java/org/apache/flume/sink/elasticsearch/client/ElasticSearchTransportClient.java:51-60 | a fresh object: an empty address array, every other reference field null, nothing asked of the library, and the invariant holds |
| Client.ElasticSearchTransportClient.ConfigureHostnames | src/main/java/org/apache/flume/sink/elasticsearch/client/ElasticSearchTransportClient.java:137-147 | a new array of one slot per entry; it succeeds exactly when the list parses, and then holds the parsed addresses in entry order; otherwise it raises the first failing entry's exception |
| Client.ElasticSearchTransportClient.Close | src/main/java/org/apache/flume/sink/elasticsearch/client/ElasticSearchTransportClient.java:150-159 | afterwards the handle is null and the invariant holds; a present handle is closed exactly once; with no handle nothing is closed, so a second call closes nothing |
| Client.ElasticSearchTransportClient.AddEvent | src/main/java/org/apache/flume/sink/elasticsearch/client/ElasticSearchTransportClient.java:162-174 | the bulk request exists afterwards. With a serializer that succeeds, exactly one request for the event's index is appended after the earlier ones. A null or failing serializer appends nothing. The index type and TTL have no effect |
| Client.ElasticSearchTransportClient.Execute | src/main/java/org/apache/flume/sink/elasticsearch/client/ElasticSearchTransportClient.java:177-183 | the bulk request is always a new empty one afterwards, success or failure. The pending request is submitted once on the current handle. A null handle or null request raises `NullPointerException`; with both present, any failure is a transport error |
| Client.ElasticSearchTransportClient.OpenClient | src/main/java/org/apache/flume/sink/elasticsearch/client/ElasticSearchTransportClient.java:190-210 | with no addresses the builder raises and nothing changes. Otherwise a new handle over the `http` endpoints of the addresses becomes current, and the previous handle, if any, is closed. The invariant holds either way |
| Client.ElasticSearchTransportClient.Connect | src/main/java/org/apache/flume/sink/elasticsearch/client/ElasticSearchTransportClient.java:81-82 | configure then open: success exactly when the list parses and is non-empty; the error is the parse error, else the builder's `IllegalArgumentException`; on success the addresses are the parsed list and one handle over them is current |
| Client.ElasticSearchTransportClient.NewWithSerializer | src/main/java/org/apache/flume/sink/elasticsearch/client/ElasticSearchTransportClient.java:79-84 | the serializer-bound constructor: same success condition and errors as configure-then-open. On success it gives a fresh valid client on handle 0 over the parsed addresses, with no pending request, the serializer set and no factory |
| Client.ElasticSearchTransportClient.NewWithIndexBuilder | src/main/java/org/apache/flume/sink/elasticsearch/client/ElasticSearchTransportClient.java:86-91 | the factory-bound constructor: as above, but the factory is set and the serializer stays null, so a later `addEvent` raises `NullPointerException` |
| Client.AtMostOneLiveHandle | src/main/java/org/apache/flume/sink/elasticsearch/client/ElasticSearchTransportClient.java:202-209 | under the invariant, the handles built and not closed are exactly the current handle, if any, so at most one is live |

## Left out

- The test-only constructors (lines 98–135) are not part of this model; they only store their arguments.
- `openLocalDiscoveryClient` and `configure(Context)` have empty bodies and are not modelled.
- The getters and setters marked for testing are not modelled.
- Logging (`logger.warn`, `logger.info`) and `printStackTrace` have no effect on the state and are
  left out.
- Addresses.ParseEntry: does not model `InetSocketAddress` construction. That construction
  resolves the host through DNS and raises `IllegalArgumentException` for a port outside
  0–65535. An address here is a plain (host, port) record, and any 32-bit port is kept.
- JavaText.ParseInt: accepts only the ASCII digits `0`–`9`. `Integer.parseInt` also accepts
  other Unicode decimal digits, which host configurations do not use.
- Client.ElasticSearchTransportClient.ConfigureHostnames: says nothing about the array's slots
  after a failure. In Java the slots after the failing entry are null; here they hold a default
  record.
- Client.BuildHttpHosts: an `HttpHost` here is the host name, port and scheme. The resolution of
  the address to an `InetAddress` inside the library is not modelled.
- Client.ElasticSearchTransportClient.AddEvent: the serializer's document building, including
  `endObject`, is folded into one function. That function may fail, which stands for any
  exception it raises.
- Client.ElasticSearchTransportClient.AddEvent: the index-name builder is a function of the
  event alone.
- Client.ElasticSearchTransportClient.SubmitBulk: the REST library's network call is a
  nondeterministic accept-or-fail. The per-item failures in a `BulkResponse` are ignored by the
  client and are not modelled.
- Client.ElasticSearchTransportClient.OpenClient: the cluster name is accepted and not used, as
  in the source.
- The two constructors are static methods that return the new object or the exception. A Java
  constructor that throws leaves no object behind, which the `Failure` result stands for.
- Null arguments are not modelled: a null host-name array (line 139), a null entry (line 141)
  and a null index-name builder (line 171) each raise `NullPointerException` in Java, while the
  model's sequences, strings and functions always exist.
- The constructor of the model starts from an empty address array where Java starts from null;
  both production constructors replace it before any other use.
- The class has no synchronisation. Concurrent use is outside the model.
